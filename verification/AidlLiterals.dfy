/** What the AIDL lexer makes of white space, comments, escapes and the forms of numbers
    (crates/aidl-rs/src/parser.rs:129-165, 331-420). */
module AidlLiterals {
  import opened Wrappers
  import opened AidlExpression
  import opened AidlLexer

  // ---------- between tokens ----------

  /** White space before a text changes nothing. */
  lemma BlankSkipped(c: char, s: string)
    requires c as int in {0x9, 0xA, 0xB, 0xC, 0xD, 0x20, 0x85, 0xA0, 0x1680, 0x2000, 0x2001, 0x2002, 0x2003, 0x2004,
                          0x2005, 0x2006, 0x2007, 0x2008, 0x2009, 0x200A, 0x2028, 0x2029, 0x202F, 0x205F, 0x3000}
    ensures Lex([c] + s) == Lex(s)
  {
    assert ([c] + s)[1..] == s;
  }

  lemma {:induction false} LineEnds(c: string, s: string)
    requires '\n' !in c
    ensures LineEnd(c + "\n" + s) == |c| + 1 && LineEnd(c) == |c|
    decreases |c|
  {
    if c == "" {
      assert c + "\n" + s == "\n" + s;
    } else {
      assert (c + "\n" + s)[1..] == c[1..] + "\n" + s;
      LineEnds(c[1..], s);
    }
  }

  /** A comment up to the end of its line is skipped, and so is one up to the end of the text. */
  lemma LineComment(c: string, s: string)
    requires '\n' !in c
    ensures Lex("//" + c + "\n" + s) == Lex(s) && Lex("//" + c) == Some([])
  {
    LineEnds(c, s);
    var t, u := "//" + c + "\n" + s, "//" + c;
    assert t[2..] == c + "\n" + s && t[2..][|c| + 1..] == s && t[|c| + 3..] == s;
    assert u[2..] == c && u[|u|..] == "";
    LexNothing();
  }

  ghost predicate Closes(c: string, i: int) {
    0 <= i < |c| - 1 && c[i] == '*' && c[i + 1] == '/'
  }

  lemma {:induction false} BlockEnds(c: string, s: string)
    requires forall i :: !Closes(c, i)
    ensures BlockEnd(c + "*/" + s) == Some(|c| + 2) && BlockEnd(c) == None
    decreases |c|
  {
    var t := c + "*/" + s;
    if c == "" {
      assert t == "*/" + s;
    } else {
      assert t[1..] == c[1..] + "*/" + s;
      forall i ensures !Closes(c[1..], i) {
        assert !Closes(c, i + 1);
      }
      BlockEnds(c[1..], s);
      assert !Closes(c, 0);
    }
  }

  /** So is a comment up to its first closing mark; without one the text is refused. */
  lemma BlockComment(c: string, s: string)
    requires forall i :: !Closes(c, i)
    ensures Lex("/*" + c + "*/" + s) == Lex(s) && Lex("/*" + c) == None
  {
    BlockEnds(c, s);
    var t, u := "/*" + c + "*/" + s, "/*" + c;
    assert t[2..] == c + "*/" + s && t[|c| + 4..] == s;
    assert u[2..] == c;
  }

  // ---------- strings and characters ----------

  function Escape(c: char): string {
    match c
    case '\n' => "\\n" case '\r' => "\\r" case '\t' => "\\t" case '\0' => "\\0"
    case '\\' => "\\\\" case '"' => "\\\""
    case _ => [c]
  }

  function Escaped(text: string): string {
    if text == "" then "" else Escape(text[0]) + Escaped(text[1..])
  }

  lemma EscapeStep(c: char, more: string)
    ensures StringBody(Escape(c) + more) ==
            match StringBody(more)
            case Unterminated => Unterminated
            case Body(text, n) => Body([c] + text, |Escape(c)| + n)
  {
    var e := Escape(c);
    var u := e + more;
    assert u[|e|..] == more;
    if |e| == 2 {
      assert u[0] == '\\' && u[1] == e[1] && Unescape(e[1]) == c;
    } else {
      assert u[0] == c;
    }
  }

  /** Any string is read from its escaped form. */
  lemma {:induction false} EscapedRead(text: string, rest: string)
    ensures StringBody(Escaped(text) + "\"" + rest) == Body(text, |Escaped(text)| + 1)
    decreases |text|
  {
    var u := Escaped(text) + "\"" + rest;
    if text == "" {
      assert u == "\"" + rest;
    } else {
      hide StringBody, Escape;
      var e, more := Escape(text[0]), Escaped(text[1..]) + "\"" + rest;
      EscapedRead(text[1..], rest);
      EscapeStep(text[0], more);
      assert u == e + more;
      assert text == [text[0]] + text[1..];
    }
  }

  lemma StringTokenRead(text: string, rest: string)
    ensures Front("\"" + Escaped(text) + "\"" + rest) == Token(StringLit(text), |Escaped(text)| + 2)
  {
    hide StringBody, Escaped;
    EscapedRead(text, rest);
    var s := "\"" + Escaped(text) + "\"" + rest;
    assert s[0] == '"' && s[1..] == Escaped(text) + "\"" + rest;
  }

  /** A backslash before any other character stands for that character. */
  lemma NeedlessEscape(c: char, s: string)
    requires c !in "nrt0"
    ensures StringBody("\\" + [c] + s) ==
            match StringBody(s) case Unterminated => Unterminated case Body(text, n) => Body([c] + text, 2 + n)
  {
    var u := "\\" + [c] + s;
    assert u[0] == '\\' && u[1] == c && u[2..] == s;
  }

  /** Every character but the backslash is read between quotes as itself, and after a backslash as itself
      or as the control character it stands for. */
  lemma CharacterRead(c: char, rest: string)
    ensures c != '\\' ==> Front("'" + [c] + "'" + rest) == Token(CharLit("'" + [c] + "'"), 3)
    ensures var v := if c == 'n' then '\n' else if c == 'r' then '\r' else if c == 't' then '\t' else c;
            Front("'\\" + [c] + "'" + rest) == Token(CharLit("'" + [v] + "'"), 4)
  {
    var s, t := "'" + [c] + "'" + rest, "'\\" + [c] + "'" + rest;
    assert s[0] == '\'' && s[1..][0] == c && s[1..][1] == '\'';
    assert t[0] == '\'' && t[1..][0] == '\\' && t[1..][1] == c && t[1..][2] == '\'';
  }

  // ---------- letters and digits ----------

  /** Letters are those of the alphabet, small or capital, and the underscore, by their codes. */
  lemma LettersAre(c: char)
    ensures Letter(c) <==> 97 <= c as int <= 122 || 65 <= c as int <= 90 || c as int == 95
    ensures Digit(c) <==> 48 <= c as int <= 57
  {}

  /** Hexadecimal digits of either case count as they should, and there are no others. */
  lemma HexDigitsAre(c: char)
    ensures HexDigit(c) <==> c in "0123456789abcdef" || c in "0123456789ABCDEF"
    ensures forall v :: 0 <= v < 16 && (c == "0123456789abcdef"[v] || c == "0123456789ABCDEF"[v]) ==>
              HexDigit(c) && HexValue(c) == v
  {
    var small, capital := "0123456789abcdef", "0123456789ABCDEF";
    if HexDigit(c) {
      assert c == small[HexValue(c)] || c == capital[HexValue(c)];
    }
  }

  // ---------- numbers ----------

  /** A number may carry one of these suffixes, which says nothing. */
  lemma SuffixIgnored(n: nat, x: string, rest: string)
    requires n < 0x8000_0000_0000_0000 && (rest != "" ==> !NumberChar(rest[0]))
    requires x in {"u8", "u32", "u64", "U8", "U32", "U64", "u", "U", "l", "L", "f"}
    ensures Front(Decimal(n) + x + rest) == Token(IntLit(n), |Decimal(n)| + |x|)
  {
    hide Front, Decimal, Value10, Normalized, NumberToken;
    var d := Decimal(n);
    var w := d + x;
    forall i | 0 <= i < |w| ensures NumberChar(w[i]) {
      if i < |d| {
        assert Digit(d[i]);
      } else {
        assert w[i] == x[i - |d|];
      }
    }
    assert w[0] == d[0];
    NumberFront(w, rest);
    SuffixGone(d, x);
    DecimalRoundTrip(n);
    DigitsAreInteger(d);
  }

  lemma SuffixGone(d: string, x: string)
    requires d != "" && AllDigits(d)
    requires x in {"u8", "u32", "u64", "U8", "U32", "U64", "u", "U", "l", "L", "f"}
    ensures Normalized(d + x) == d
  {
    hide WithoutUnderscores, Stripped, EndsWith;
    forall i, j | 0 <= i < j < |SUFFIXES| ensures !EndsWith(SUFFIXES[j], SUFFIXES[i]) {
      SuffixesApart(i, j);
    }
    SuffixListed(x);
    SuffixFound(d, x, SUFFIXES);
    NoUnderscores(d);
  }

  lemma SuffixListed(x: string)
    requires x in {"u8", "u32", "u64", "U8", "U32", "U64", "u", "U", "l", "L", "f"}
    ensures x in SUFFIXES && forall i :: 0 <= i < |SUFFIXES| ==> SUFFIXES[i] != "" && !Digit(SUFFIXES[i][0])
  {
    assert SUFFIXES[0] == "u8" && SUFFIXES[1] == "u32" && SUFFIXES[2] == "u64" && SUFFIXES[3] == "U8";
    assert SUFFIXES[4] == "U32" && SUFFIXES[5] == "U64" && SUFFIXES[6] == "u" && SUFFIXES[7] == "U";
    assert SUFFIXES[8] == "l" && SUFFIXES[9] == "L" && SUFFIXES[10] == "f";
  }

  lemma SuffixesApart(i: nat, j: nat)
    requires i < j < |SUFFIXES|
    ensures !EndsWith(SUFFIXES[j], SUFFIXES[i])
  {
    var a, b := SUFFIXES[j], SUFFIXES[i];
    if |b| <= |a| {
      var k := |a| - |b|;
      assert a[k..][0] == a[k] && a[k..][|b| - 1] == a[|a| - 1];
    }
  }

  /** Of the suffixes, only the one that is there ends the number. */
  lemma {:induction false} SuffixFound(d: string, x: string, suffixes: seq<string>)
    requires d != "" && AllDigits(d) && x in suffixes && x != ""
    requires forall i :: 0 <= i < |suffixes| ==> suffixes[i] != "" && !Digit(suffixes[i][0])
    requires forall i, j :: 0 <= i < j < |suffixes| ==> !EndsWith(suffixes[j], suffixes[i])
    ensures Stripped(d + x, suffixes) == d
    decreases |suffixes|
  {
    var w, y := d + x, suffixes[0];
    if x == y {
      assert w[|d|..] == x && w[..|d|] == d;
    } else {
      var j :| 0 <= j < |suffixes| && suffixes[j] == x;
      assert !EndsWith(x, y);
      if |y| <= |w| {
        if |y| <= |x| {
          assert w[|w| - |y|..] == x[|x| - |y|..];
        } else {
          assert w[|w| - |y|..][0] == d[|w| - |y|];
        }
      }
      assert x in suffixes[1..] by {
        assert suffixes[1..][j - 1] == x;
      }
      SuffixFound(d, x, suffixes[1..]);
    }
  }

  lemma {:induction false} UnderscoreGone(a: string, b: string)
    ensures WithoutUnderscores(a + b) == WithoutUnderscores(a) + WithoutUnderscores(b)
    decreases |a|
  {
    if a == "" {
      assert a + b == b;
    } else {
      assert (a + b)[1..] == a[1..] + b && (a + b)[0] == a[0];
      UnderscoreGone(a[1..], b);
      ConcatAssoc(if a[0] == '_' then "" else [a[0]], WithoutUnderscores(a[1..]), WithoutUnderscores(b));
    }
  }

  /** Underscores between digits say nothing. */
  lemma UnderscoreIgnored(a: string, b: string, rest: string)
    requires a != "" && b != "" && AllDigits(a) && AllDigits(b) && (rest != "" ==> !NumberChar(rest[0]))
    requires Value10(a + b) < 0x8000_0000_0000_0000
    ensures Front(a + "_" + b + rest) == Token(IntLit(Value10(a + b)), |a| + 1 + |b|)
  {
    hide Front, Value10, NumberToken, Normalized;
    var w := a + "_" + b;
    forall i | 0 <= i < |w| ensures NumberChar(w[i]) {
      assert i < |a| ==> Digit(a[i]);
      assert i > |a| ==> w[i] == b[i - |a| - 1] && Digit(b[i - |a| - 1]);
    }
    assert w[0] == a[0];
    NumberFront(w, rest);
    UnderscoreNormalized(a, b);
    DigitsAreInteger(a + b);
  }

  lemma UnderscoreNormalized(a: string, b: string)
    requires a != "" && b != "" && AllDigits(a) && AllDigits(b)
    ensures Normalized(a + "_" + b) == a + b
  {
    hide WithoutUnderscores, Stripped;
    var w := a + "_" + b;
    GroupedStays(a, b, SUFFIXES);
    UnderscoreGone(a + "_", b);
    UnderscoreGone(a, "_");
    NoUnderscores(a);
    NoUnderscores(b);
    UnderscoreAlone();
    assert a + "" + b == a + b;
  }

  lemma UnderscoreAlone()
    ensures WithoutUnderscores("_") == ""
  {
    assert "_"[1..] == "";
    assert WithoutUnderscores("") == "";
  }

  lemma {:induction false} GroupedStays(a: string, b: string, suffixes: seq<string>)
    requires AllDigits(a) && b != "" && AllDigits(b)
    requires forall i :: 0 <= i < |suffixes| ==> suffixes[i] != "" && Letter(suffixes[i][0]) && suffixes[i][0] != '_'
    ensures Stripped(a + "_" + b, suffixes) == a + "_" + b
    decreases |suffixes|
  {
    if suffixes != [] {
      var w, y := a + "_" + b, suffixes[0];
      if |y| <= |w| {
        var k := |w| - |y|;
        assert w[k..][0] == w[k];
        assert k < |a| ==> w[k] == a[k] && Digit(a[k]);
        assert k > |a| ==> w[k] == b[k - |a| - 1] && Digit(b[k - |a| - 1]);
      }
      GroupedStays(a, b, suffixes[1..]);
    }
  }

  /** Digits, perhaps a point and digits, perhaps an exponent of digits. */
  predicate Parts(z: string, a: string, b: string, c: string) {
    && z == a + b + c && a != "" && AllDigits(a)
    && (b == "" || (b[0] == '.' && AllDigits(b[1..])))
    && (c == "" || (c[0] in "eE" && |c| > 1 && AllDigits(c[1..])))
  }

  ghost predicate Floating(z: string) {
    exists a, b, c :: Parts(z, a, b, c)
  }

  lemma {:induction false} DigitsEnd(a: string, rest: string)
    requires AllDigits(a) && (rest != "" ==> !Digit(rest[0]))
    ensures DigitsLength(a + rest) == |a|
    decreases |a|
  {
    if a == "" {
      assert a + rest == rest;
    } else {
      assert (a + rest)[1..] == a[1..] + rest;
      DigitsEnd(a[1..], rest);
    }
  }

  lemma {:induction false} DigitsAre(s: string)
    ensures AllDigits(s[..DigitsLength(s)])
    decreases |s|
  {
    if s != "" && Digit(s[0]) {
      DigitsAre(s[1..]);
      var n := DigitsLength(s);
      assert forall i :: 0 < i < n ==> s[..n][i] == s[1..][..n - 1][i - 1];
    }
  }

  lemma ExponentIff(c: string)
    ensures ExponentShape(c) <==> c == "" || (c[0] in "eE" && |c| > 1 && AllDigits(c[1..]))
  {
    if |c| > 1 {
      DigitsAre(c[1..]);
      assert DigitsLength(c[1..]) == |c| - 1 ==> c[1..][..|c| - 1] == c[1..];
      if AllDigits(c[1..]) {
        DigitsEnd(c[1..], "");
        assert c[1..] + "" == c[1..];
      }
    }
  }

  lemma ShapeFloats(z: string)
    requires z != "" && Digit(z[0]) && FloatShape(z)
    ensures Floating(z)
  {
    hide ExponentShape;
    var n, end := DigitsLength(z), FloatEnd(z);
    var a, b, c := z[..n], z[n..end], z[end..];
    DigitsAre(z);
    ExponentIff(c);
    if b != "" {
      DigitsAre(z[n + 1..]);
      assert b[1..] == z[n + 1..][..end - n - 1] && b[0] == '.';
    }
    assert z == a + b + c;
    assert Parts(z, a, b, c);
  }

  lemma EndOfParts(a: string, b: string, c: string)
    requires a != "" && AllDigits(a) && (b == "" || (b[0] == '.' && AllDigits(b[1..])))
    requires c != "" ==> !Digit(c[0]) && c[0] != '.'
    ensures DigitsLength(a + b + c) == |a| && FloatEnd(a + b + c) == |a + b|
  {
    var z := a + b + c;
    assert z == a + (b + c);
    DigitsEnd(a, b + c);
    if b != "" {
      assert z[|a|] == '.' && z[|a| + 1..] == b[1..] + c;
      DigitsEnd(b[1..], c);
    } else if c != "" {
      assert z[|a|] == c[0];
    }
  }

  lemma FloatingShapes(z: string, a: string, b: string, c: string)
    requires Parts(z, a, b, c)
    ensures FloatShape(z)
  {
    hide ExponentShape, FloatEnd, DigitsLength;
    EndOfParts(a, b, c);
    ExponentIff(c);
    assert z[|a + b|..] == c;
  }

  /** A number with a point or an exponent is accepted if and only if it has that form, and is kept as it
      is spelled. */
  lemma FloatIff(z: string)
    requires z != "" && Digit(z[0]) && ('.' in z || 'e' in z || 'E' in z)
    requires !(|z| >= 2 && z[0] == '0' && z[1] in "xX")
    ensures NumberToken(z) == if Floating(z) then Some(FloatLit(z)) else None
  {
    hide FloatShape, Parts;
    if FloatShape(z) {
      ShapeFloats(z);
    }
    if a, b, c :| Parts(z, a, b, c) {
      FloatingShapes(z, a, b, c);
    }
  }
}
