/** The lexer of AIDL (crates/aidl-rs/src/parser.rs:126-420) and the characters of constant expressions:
    which texts built for an expression are read back as the tokens they were spelled from. */
module AidlLexer {
  import opened Wrappers
  import opened AidlExpression

  predicate Digit(c: char) { '0' <= c <= '9' }

  predicate Letter(c: char) { 'a' <= c <= 'z' || 'A' <= c <= 'Z' || c == '_' }

  predicate WordChar(c: char) { Digit(c) || Letter(c) }

  predicate NumberChar(c: char) { WordChar(c) || c == '.' }

  /** The White_Space characters of Unicode. */
  predicate Blank(c: char) {
    var n := c as int;
    || 0x9 <= n <= 0xD || n in {0x20, 0x85, 0xA0, 0x1680} || 0x2000 <= n <= 0x200A
    || n in {0x2028, 0x2029, 0x202F, 0x205F, 0x3000}
  }

  const I64_LIMIT: nat := 0x8000_0000_0000_0000

  // ---------- words and numbers ----------

  /** The length of the word at the front. */
  function WordLength(s: string): (n: nat)
    ensures n <= |s|
  {
    if s == "" || !WordChar(s[0]) then 0 else 1 + WordLength(s[1..])
  }

  function NumberLength(s: string): (n: nat)
    ensures n <= |s|
  {
    if s == "" || !NumberChar(s[0]) then 0 else 1 + NumberLength(s[1..])
  }

  predicate AllDigits(s: string) {
    forall i :: 0 <= i < |s| ==> Digit(s[i])
  }

  function DigitValue(c: char): (v: nat)
    requires Digit(c)
    ensures v < 10
  {
    c as int - '0' as int
  }

  function Value10(s: string): nat
    requires AllDigits(s)
  {
    if s == "" then 0 else 10 * Value10(s[..|s| - 1]) + DigitValue(s[|s| - 1])
  }

  /** Decimal digits, at least one. */
  function Decimal(n: nat): (s: string)
    ensures s != "" && AllDigits(s)
  {
    var last := [('0' as int + n % 10) as char];
    if n < 10 then last else Decimal(n / 10) + last
  }

  lemma {:induction false} DecimalRoundTrip(n: nat)
    ensures Value10(Decimal(n)) == n
  {
    var s := Decimal(n);
    if n < 10 {
      assert s[..0] == "";
    } else {
      DecimalRoundTrip(n / 10);
      assert s[..|s| - 1] == Decimal(n / 10);
    }
  }

  predicate HexDigit(c: char) { Digit(c) || 'a' <= c <= 'f' || 'A' <= c <= 'F' }

  predicate AllHex(s: string) {
    forall i :: 0 <= i < |s| ==> HexDigit(s[i])
  }

  function HexValue(c: char): (v: nat)
    requires HexDigit(c)
    ensures v < 16
  {
    if Digit(c) then DigitValue(c) else if 'a' <= c then c as int - 'a' as int + 10 else c as int - 'A' as int + 10
  }

  function Value16(s: string): nat
    requires AllHex(s)
  {
    if s == "" then 0 else 16 * Value16(s[..|s| - 1]) + HexValue(s[|s| - 1])
  }

  const SUFFIXES: seq<string> := ["u8", "u32", "u64", "U8", "U32", "U64", "u", "U", "l", "L", "f"]

  predicate EndsWith(s: string, suffix: string) {
    |suffix| <= |s| && s[|s| - |suffix|..] == suffix
  }

  /** Without the first of the suffixes that it ends with. */
  function Stripped(s: string, suffixes: seq<string>): (r: string)
    ensures r <= s
  {
    if suffixes == [] then s
    else if EndsWith(s, suffixes[0]) then s[..|s| - |suffixes[0]|]
    else Stripped(s, suffixes[1..])
  }

  function WithoutUnderscores(s: string): string {
    if s == "" then "" else (if s[0] == '_' then "" else [s[0]]) + WithoutUnderscores(s[1..])
  }

  function Normalized(s: string): string {
    WithoutUnderscores(Stripped(s, SUFFIXES))
  }

  /** The length of the digits at the front. */
  function DigitsLength(s: string): (n: nat)
    ensures n <= |s|
  {
    if s == "" || !Digit(s[0]) then 0 else 1 + DigitsLength(s[1..])
  }

  /** The length of the digits, and of a point and digits if there is one. */
  function FloatEnd(s: string): (n: nat)
    ensures DigitsLength(s) <= n <= |s|
  {
    var whole := DigitsLength(s);
    if whole < |s| && s[whole] == '.' then whole + 1 + DigitsLength(s[whole + 1..]) else whole
  }

  predicate ExponentShape(s: string) {
    s == "" || (s[0] in "eE" && |s| > 1 && DigitsLength(s[1..]) == |s| - 1)
  }

  /** Digits, a point and digits if there is one, and an exponent of digits if there is one. */
  predicate FloatShape(s: string) {
    && (DigitsLength(s) > 0 || FloatEnd(s) > DigitsLength(s) + 1)
    && ExponentShape(s[FloatEnd(s)..])
  }

  // ---------- strings and characters ----------

  /** A literal from after its opening quote: what it says, and the length with the closing one. */
  datatype Body = Body(text: string, size: nat) | Unterminated

  function Unescape(c: char): char {
    match c case 'n' => '\n' case 'r' => '\r' case 't' => '\t' case '0' => '\0' case _ => c
  }

  function StringBody(s: string): (b: Body)
    ensures b.Body? ==> b.size <= |s|
    decreases |s|
  {
    if s == "" then Unterminated
    else if s[0] == '"' then Body("", 1)
    else if s[0] == '\\' then
      if |s| < 2 then Unterminated
      else match StringBody(s[2..])
        case Unterminated => Unterminated
        case Body(text, n) => Body([Unescape(s[1])] + text, 2 + n)
    else match StringBody(s[1..])
      case Unterminated => Unterminated
      case Body(text, n) => Body([s[0]] + text, 1 + n)
  }

  function UnescapeChar(c: char): char {
    match c case 'n' => '\n' case 'r' => '\r' case 't' => '\t' case _ => c
  }

  /** The text keeps its quotes. */
  function CharBody(s: string): (b: Body)
    ensures b.Body? ==> b.size <= |s|
  {
    if |s| >= 3 && s[0] == '\\' && s[2] == '\'' then Body("'" + [UnescapeChar(s[1])] + "'", 3)
    else if |s| >= 2 && s[0] != '\\' && s[1] == '\'' then Body("'" + [s[0]] + "'", 2)
    else Unterminated
  }

  function Quoted(b: Body, isString: bool): (r: Lexed)
    ensures !r.Bad? ==> b.Body? && r == Token(if isString then StringLit(b.text) else CharLit(b.text), 1 + b.size)
  {
    match b
    case Unterminated => Bad
    case Body(text, n) => Token(if isString then StringLit(text) else CharLit(text), 1 + n)
  }

  // ---------- the lexer ----------

  datatype Lexed = Token(token: Token, size: nat) | Skipped(size: nat) | Bad

  /** The text from after a line comment. */
  function LineEnd(s: string): (n: nat)
    ensures n <= |s|
  {
    if s == "" then 0 else if s[0] == '\n' then 1 else 1 + LineEnd(s[1..])
  }

  /** The length up to the end of a block comment; none if it is not closed. */
  function BlockEnd(s: string): (n: Option<nat>)
    ensures n.Some? ==> n.value <= |s|
  {
    if |s| < 2 then None
    else if s[0] == '*' && s[1] == '/' then Some(2)
    else match BlockEnd(s[1..])
      case None => None
      case Some(n) => Some(1 + n)
  }

  /** One or two characters, whichever is the longer operator. */
  function Longer(s: string, second: char, two: Token, one: Token): (r: Lexed)
    requires s != ""
    ensures r.Token? && 1 <= r.size <= |s|
  {
    if |s| > 1 && s[1] == second then Token(two, 2) else Token(one, 1)
  }

  function Slashed(s: string): (r: Lexed)
    requires s != "" && s[0] == '/'
    ensures !r.Bad? ==> 1 <= r.size <= |s|
  {
    if |s| == 1 then Token(Slash, 1)
    else if s[1] == '/' then Skipped(2 + LineEnd(s[2..]))
    else if s[1] == '*' then
      (match BlockEnd(s[2..]) case Some(n) => Skipped(2 + n) case None => Bad)
    else Bad
  }

  /** A number without suffix and underscores; of one with a point or an exponent the spelling is kept. */
  function NumberToken(z: string): Option<Token> {
    if |z| >= 2 && z[0] == '0' && z[1] in "xX" then
      if z[2..] != "" && AllHex(z[2..]) && Value16(z[2..]) < I64_LIMIT then Some(IntLit(Value16(z[2..]))) else None
    else if '.' in z || 'e' in z || 'E' in z then
      if FloatShape(z) then Some(FloatLit(z)) else None
    else if z != "" && AllDigits(z) && Value10(z) < I64_LIMIT then Some(IntLit(Value10(z)))
    else None
  }

  function Number(s: string): (r: Lexed)
    requires s != "" && Digit(s[0])
    ensures !r.Bad? ==> 1 <= r.size <= |s|
  {
    var n := NumberLength(s);
    match NumberToken(Normalized(s[..n]))
    case None => Bad
    case Some(t) => Token(t, n)
  }

  /** Characters that are tokens whatever follows. */
  function Single(c: char): Option<Token> {
    match c
    case '@' => Some(At)
    case ';' => Some(Semi)
    case ',' => Some(Comma)
    case '.' => Some(Dot)
    case ':' => Some(Colon)
    case '{' => Some(LBrace)
    case '}' => Some(RBrace)
    case '(' => Some(LParen)
    case ')' => Some(RParen)
    case '[' => Some(LBracket)
    case ']' => Some(RBracket)
    case '+' => Some(Plus)
    case '-' => Some(Minus)
    case '*' => Some(Star)
    case '%' => Some(Percent)
    case '^' => Some(Caret)
    case '~' => Some(Tilde)
    case _ => None
  }

  /** Characters that start one of two operators, or three. */
  function Double(s: string): (r: Lexed)
    requires s != ""
    ensures !r.Bad? ==> 1 <= r.size <= |s|
  {
    match s[0]
    case '=' => Longer(s, '=', EqEq, Equals)
    case '<' => if |s| > 1 && s[1] == '<' then Token(LAngleAngle, 2) else Longer(s, '=', LessEqual, LAngle)
    case '>' => if |s| > 1 && s[1] == '>' then Token(RAngleAngle, 2) else Longer(s, '=', GreaterEqual, RAngle)
    case '&' => Longer(s, '&', AndAnd, Amp)
    case '|' => Longer(s, '|', OrOr, Pipe)
    case '!' => Longer(s, '=', NotEq, Bang)
    case _ => Bad
  }

  /** What stands at the front: a token, something between tokens, or neither. */
  function Front(s: string): (r: Lexed)
    requires s != ""
    ensures !r.Bad? ==> 1 <= r.size <= |s|
  {
    var c := s[0];
    if Blank(c) then Skipped(1)
    else if c == '/' then Slashed(s)
    else if Single(c).Some? then Token(Single(c).value, 1)
    else if c == '"' then Quoted(StringBody(s[1..]), true)
    else if c == '\'' then Quoted(CharBody(s[1..]), false)
    else if Digit(c) then Number(s)
    else if Letter(c) then Token(Ident(s[..WordLength(s)]), WordLength(s))
    else Double(s)
  }

  function Lex(s: string): Option<seq<Token>>
    decreases |s|
  {
    if s == "" then Some([])
    else
      match Front(s)
      case Bad => None
      case Skipped(n) => Lex(s[n..])
      case Token(t, n) => (match Lex(s[n..]) case None => None case Some(ts) => Some([t] + ts))
  }

  function Onto(ts: seq<Token>, more: Option<seq<Token>>): Option<seq<Token>> {
    match more case None => None case Some(us) => Some(ts + us)
  }

  /** `tokenize`: the loop over what stands at the front. */
  method Tokenize(input: string) returns (r: Option<seq<Token>>)
    ensures r == match Lex(input) case None => None case Some(ts) => Some(ts + [Eof])
  {
    hide Front;
    var at: nat, tokens: seq<Token> := 0, [];
    assert input[0..] == input;
    OntoNothing(Lex(input));
    while at < |input|
      invariant at <= |input| && Lex(input) == Onto(tokens, Lex(input[at..]))
      decreases |input| - at
    {
      var front, rest := Front(input[at..]), input[at..];
      match front {
        case Bad => return None;
        case Skipped(n) =>
          assert rest[n..] == input[at + n..];
          at := at + n;
        case Token(t, n) =>
          assert rest[n..] == input[at + n..];
          OntoOne(tokens, t, Lex(input[at + n..]));
          tokens, at := tokens + [t], at + n;
      }
    }
    assert tokens + [] == tokens;
    r := Some(tokens + [Eof]);
  }

  lemma OntoNothing(o: Option<seq<Token>>)
    ensures Onto([], o) == o
  {
    if o.Some? {
      assert [] + o.value == o.value;
    }
  }

  lemma OntoOne(ts: seq<Token>, t: Token, o: Option<seq<Token>>)
    ensures Onto(ts, match o case None => None case Some(us) => Some([t] + us)) == Onto(ts + [t], o)
  {
    if o.Some? {
      ConcatAssoc(ts, [t], o.value);
    }
  }

  // ---------- spelling ----------

  /** Tokens as the lexer gives them, apart from numbers with a point or an exponent. */
  predicate Spellable(t: Token) {
    match t
    case Ident(name) => name != "" && Letter(name[0]) && forall i :: 0 <= i < |name| ==> WordChar(name[i])
    case IntLit(n) => 0 <= n < I64_LIMIT
    case StringLit(_) => true
    case CharLit(s) => |s| == 3 && s[0] == '\'' && s[2] == '\''
    case FloatLit(_) => false
    case Eof => false
    case _ => true
  }

  predicate Clean(s: string) {
    forall i :: 0 <= i < |s| ==> s[i] != '"' && s[i] != '\\'
  }

  /** The lexer undoes escapes and the text has none: nothing in it may need one. */
  predicate Faithful(t: Token) {
    match t
    case StringLit(s) => Clean(s)
    case CharLit(s) => |s| > 1 ==> s[1] != '\\'
    case _ => true
  }

  function Chars(t: Token): (s: string)
    requires Spellable(t)
    ensures s != ""
  {
    match t
    case Ident(name) => name
    case IntLit(n) => Decimal(n)
    case StringLit(s) => "\"" + s + "\""
    case CharLit(s) => s
    case At => "@" case Semi => ";" case Comma => "," case Dot => "." case Colon => ":" case Equals => "="
    case LBrace => "{" case RBrace => "}" case LParen => "(" case RParen => ")"
    case LBracket => "[" case RBracket => "]"
    case LAngle => "<" case RAngle => ">" case Plus => "+" case Minus => "-" case Star => "*" case Slash => "/"
    case Percent => "%" case Amp => "&" case Pipe => "|" case Caret => "^" case Tilde => "~" case Bang => "!"
    case AndAnd => "&&" case OrOr => "||" case EqEq => "==" case NotEq => "!="
    case LAngleAngle => "<<" case RAngleAngle => ">>" case LessEqual => "<=" case GreaterEqual => ">="
  }

  predicate AllSpellable(ts: seq<Token>) {
    forall i :: 0 <= i < |ts| ==> Spellable(ts[i])
  }

  function Spell(ts: seq<Token>): string
    requires AllSpellable(ts)
  {
    if ts == [] then "" else Chars(ts[0]) + Spell(ts[1..])
  }

  /** A character after a token that does not become part of it. */
  predicate Apart(t: Token, c: char) {
    match t
    case Ident(_) => !WordChar(c)
    case IntLit(_) => !NumberChar(c)
    case Equals => c != '='
    case LAngle => c != '<' && c != '='
    case RAngle => c != '>' && c != '='
    case Amp => c != '&'
    case Pipe => c != '|'
    case Bang => c != '='
    case Slash => c != '/' && c != '*'
    case _ => true
  }

  // ---------- one token ----------

  lemma {:induction false} WordEnds(w: string, rest: string)
    requires (forall i :: 0 <= i < |w| ==> WordChar(w[i])) && (rest != "" ==> !WordChar(rest[0]))
    ensures WordLength(w + rest) == |w|
    decreases |w|
  {
    if w == "" {
      assert w + rest == rest;
    } else {
      assert (w + rest)[1..] == w[1..] + rest;
      WordEnds(w[1..], rest);
    }
  }

  lemma {:induction false} NumberEnds(w: string, rest: string)
    requires (forall i :: 0 <= i < |w| ==> NumberChar(w[i])) && (rest != "" ==> !NumberChar(rest[0]))
    ensures NumberLength(w + rest) == |w|
    decreases |w|
  {
    if w == "" {
      assert w + rest == rest;
    } else {
      assert (w + rest)[1..] == w[1..] + rest;
      NumberEnds(w[1..], rest);
    }
  }

  lemma IdentRead(name: string, rest: string)
    requires Spellable(Ident(name)) && (rest != "" ==> !WordChar(rest[0]))
    ensures Front(name + rest) == Token(Ident(name), |name|)
  {
    WordEnds(name, rest);
    assert (name + rest)[..|name|] == name && (name + rest)[0] == name[0];
  }

  /** Digits end with no suffix, though suffixes end with digits. */
  lemma {:induction false} DigitsStay(w: string, suffixes: seq<string>)
    requires AllDigits(w) && forall i :: 0 <= i < |suffixes| ==> suffixes[i] != "" && !Digit(suffixes[i][0])
    ensures Stripped(w, suffixes) == w
    decreases |suffixes|
  {
    if suffixes != [] {
      var x := suffixes[0];
      if |x| <= |w| {
        assert w[|w| - |x|..][0] == w[|w| - |x|];
      }
      DigitsStay(w, suffixes[1..]);
    }
  }

  lemma {:induction false} NoUnderscores(w: string)
    requires forall i :: 0 <= i < |w| ==> w[i] != '_'
    ensures WithoutUnderscores(w) == w
    decreases |w|
  {
    if w != "" {
      NoUnderscores(w[1..]);
      assert w == [w[0]] + w[1..];
    }
  }

  lemma FrontNumber(s: string)
    requires s != "" && Digit(s[0])
    ensures Front(s) == Number(s)
  {
    hide Number;
  }

  /** A run of characters that can be in a number is read up to its end. */
  lemma NumberFront(w: string, rest: string)
    requires w != "" && Digit(w[0]) && forall i :: 0 <= i < |w| ==> NumberChar(w[i])
    requires rest != "" ==> !NumberChar(rest[0])
    ensures Front(w + rest) ==
            match NumberToken(Normalized(w))
            case None => Bad
            case Some(t) => Token(t, |w|)
  {
    hide Normalized, NumberToken, NumberChar, Front;
    NumberEnds(w, rest);
    assert (w + rest)[..|w|] == w && (w + rest)[0] == w[0];
    FrontNumber(w + rest);
  }

  lemma IntRead(n: nat, rest: string)
    requires n < I64_LIMIT && (rest != "" ==> !NumberChar(rest[0]))
    ensures Front(Decimal(n) + rest) == Token(IntLit(n), |Decimal(n)|)
  {
    hide Decimal, Value10, Stripped, WithoutUnderscores, NumberToken, Front;
    var w := Decimal(n);
    DecimalRoundTrip(n);
    DigitsStay(w, SUFFIXES);
    NoUnderscores(w);
    DigitsAreInteger(w);
    NumberFront(w, rest);
  }

  lemma DigitsAreInteger(w: string)
    requires w != "" && AllDigits(w) && Value10(w) < I64_LIMIT
    ensures NumberToken(w) == Some(IntLit(Value10(w)))
  {
    hide Value10;
    assert |w| >= 2 ==> Digit(w[1]);
  }

  /** How many backslashes stand at the front. */
  function Lead(s: string): nat {
    if s == "" || s[0] != '\\' then 0 else 1 + Lead(s[1..])
  }

  /** Reading halves them. */
  lemma {:induction false} LeadHalves(u: string)
    requires StringBody(u).Body?
    ensures Lead(StringBody(u).text) == Lead(u) / 2
    decreases |u|
  {
    if u[0] == '\\' {
      var more := StringBody(u[2..]).text;
      LeadHalves(u[2..]);
      assert ([Unescape(u[1])] + more)[1..] == more;
      assert u[1..][1..] == u[2..];
    }
  }

  lemma {:induction false} LeadStops(text: string, rest: string)
    ensures Lead(text + "\"" + rest) == Lead(text)
    decreases |text|
  {
    if text != "" {
      assert (text + "\"" + rest)[1..] == text[1..] + "\"" + rest;
      LeadStops(text[1..], rest);
    }
  }

  /** What a string says is read back between quotes if and only if there is nothing to escape. */
  lemma {:induction false} StringReadIff(text: string, rest: string)
    ensures var b := StringBody(text + "\"" + rest);
            if Clean(text) then b == Body(text, |text| + 1) else b.Unterminated? || b.text != text
    decreases |text|
  {
    var u := text + "\"" + rest;
    if text != "" {
      assert u[0] == text[0] && u[1..] == text[1..] + "\"" + rest;
      if text[0] == '\\' {
        LeadStops(text, rest);
        if StringBody(u).Body? {
          LeadHalves(u);
        }
      } else if text[0] != '"' {
        StringReadIff(text[1..], rest);
        assert text == [text[0]] + text[1..];
        var b := StringBody(u[1..]);
        assert b.Body? ==> ([text[0]] + b.text)[1..] == b.text;
      }
    }
  }

  lemma StringRead(text: string, rest: string)
    ensures var f := Front(Chars(StringLit(text)) + rest);
            if Clean(text) then f == Token(StringLit(text), |text| + 2)
            else f.Bad? || (f.Token? && f.token != StringLit(text))
  {
    hide StringBody, Clean;
    var s := Chars(StringLit(text)) + rest;
    assert s[0] == '"' && s[1..] == text + "\"" + rest;
    StringReadIff(text, rest);
  }

  lemma CharRead(text: string, rest: string)
    requires Spellable(CharLit(text))
    ensures var f := Front(text + rest);
            if text[1] != '\\' then f == Token(CharLit(text), 3) else f.Bad? || (f.Token? && f.token != CharLit(text))
  {
    var s := text + rest;
    assert s[0] == '\'' && s[1..][0] == text[1] && s[1..][1] == '\'';
    assert text == "'" + [text[1]] + "'";
  }

  /** A hexadecimal number is read as what it says if and only if it is in range and does not end
      in a small `f`: that is taken for the suffix of a floating-point number. */
  lemma HexReadIff(h: string, rest: string)
    requires h != "" && AllHex(h) && (rest != "" ==> !NumberChar(rest[0]))
    ensures Front("0x" + h + rest) == Token(IntLit(Value16(h)), 2 + |h|) <==>
            Value16(h) < I64_LIMIT && h[|h| - 1] != 'f'
  {
    hide Value16, Front, NumberToken, Normalized;
    var k := |h| - 1;
    HexFront(h, rest);
    HexNormalized(h);
    if h[k] == 'f' {
      HexToken(h[..k]);
      LastF(h);
    } else {
      HexToken(h);
    }
  }

  lemma HexFront(h: string, rest: string)
    requires AllHex(h) && (rest != "" ==> !NumberChar(rest[0]))
    ensures Front("0x" + h + rest) ==
            match NumberToken(Normalized("0x" + h))
            case None => Bad
            case Some(t) => Token(t, 2 + |h|)
  {
    hide Front, NumberToken, Normalized;
    forall i | 0 <= i < |"0x" + h| ensures NumberChar(("0x" + h)[i]) {
      assert i >= 2 ==> HexDigit(h[i - 2]);
    }
    NumberFront("0x" + h, rest);
  }

  lemma HexToken(h: string)
    requires AllHex(h)
    ensures NumberToken("0x" + h) ==
            if h != "" && Value16(h) < I64_LIMIT then Some(IntLit(Value16(h))) else None
  {
    hide Value16;
    assert ("0x" + h)[2..] == h;
  }

  lemma LastF(h: string)
    requires h != "" && AllHex(h) && h[|h| - 1] == 'f'
    ensures Value16(h) == 16 * Value16(h[..|h| - 1]) + 15
  {}

  lemma HexNormalized(h: string)
    requires h != "" && AllHex(h)
    ensures Normalized("0x" + h) == "0x" + if h[|h| - 1] == 'f' then h[..|h| - 1] else h
  {
    hide Stripped, WithoutUnderscores;
    var w := "0x" + h;
    HexSuffixes(h, SUFFIXES);
    assert w[..|w| - 1] == "0x" + h[..|h| - 1];
    NoUnderscores("0x" + if h[|h| - 1] == 'f' then h[..|h| - 1] else h);
  }

  /** No other suffix than the last starts with a character that a hexadecimal number can hold. */
  lemma {:induction false} HexSuffixes(h: string, suffixes: seq<string>)
    requires h != "" && AllHex(h)
    requires suffixes != [] && suffixes[|suffixes| - 1] == "f"
    requires forall i :: 0 <= i < |suffixes| - 1 ==> suffixes[i] != "" && suffixes[i][0] in "uUlL"
    ensures var w := "0x" + h;
            Stripped(w, suffixes) == if h[|h| - 1] == 'f' then w[..|w| - 1] else w
    decreases |suffixes|
  {
    var w, x := "0x" + h, suffixes[0];
    if |suffixes| == 1 {
      assert w[|w| - 1..] == [h[|h| - 1]];
      assert suffixes[1..] == [];
    } else {
      if |x| <= |w| {
        assert w[|w| - |x|..][0] == w[|w| - |x|];
      }
      HexSuffixes(h, suffixes[1..]);
    }
  }

  lemma OperatorRead(t: Token, rest: string)
    requires Spellable(t) && !Operand(t) && !t.Slash? && (rest != "" ==> Apart(t, rest[0]))
    ensures Front(Chars(t) + rest) == Token(t, |Chars(t)|)
  {
    var s := Chars(t) + rest;
    assert s[0] == Chars(t)[0] && (|Chars(t)| == 2 ==> s[1] == Chars(t)[1]);
    assert |Chars(t)| == 1 && |s| > 1 ==> s[1] == rest[0];
  }

  /** A token is read back from its characters if and only if it is faithful. */
  lemma TokenRead(t: Token, rest: string)
    requires Spellable(t) && !t.Slash? && (rest != "" ==> Apart(t, rest[0]))
    ensures var f := Front(Chars(t) + rest);
            if Faithful(t) then f == Token(t, |Chars(t)|) else f.Bad? || (f.Token? && f.token != t)
  {
    hide Front, Decimal;
    if t.Ident? {
      IdentRead(t.name, rest);
    } else if t.IntLit? {
      IntRead(t.value, rest);
    } else if t.StringLit? {
      StringRead(t.text, rest);
    } else if t.CharLit? {
      CharRead(t.text, rest);
    } else {
      OperatorRead(t, rest);
    }
  }

  // ---------- a whole text ----------

  /** No token runs into the next. */
  ghost predicate Spaced(ts: seq<Token>)
    requires AllSpellable(ts)
  {
    forall i :: 0 <= i < |ts| - 1 ==> Apart(ts[i], Chars(ts[i + 1])[0])
  }

  /** Tokens that do not run together are read back from their characters if and only if they are
      faithful and there is no `/` among them: the lexer takes that for a comment only. */
  lemma {:induction false} LexSpell(ts: seq<Token>)
    requires AllSpellable(ts) && Spaced(ts) && (ts != [] ==> !ts[|ts| - 1].Slash?)
    ensures Lex(Spell(ts)) == Some(ts) <==> Slash !in ts && AllFaithful(ts)
    ensures AllFaithful(ts) && Slash in ts ==> Lex(Spell(ts)) == None
    decreases |ts|
  {
    hide Apart, Chars, Spellable, Lex, Faithful;
    if ts == [] {
      LexNothing();
    } else {
      var t, more, rest := ts[0], ts[1..], Spell(ts[1..]);
      SpacedRest(ts);
      if more != [] {
        FirstChar(more);
        assert Apart(ts[0], Chars(ts[0 + 1])[0]);
      }
      LexSpell(more);
      LexFront(t, rest);
      assert ts == [t] + more;
      assert AllFaithful(ts) <==> Faithful(t) && AllFaithful(more) by {
        assert forall i :: 0 < i < |ts| ==> ts[i] == more[i - 1];
      }
      if Lex(rest).Some? {
        assert ([t] + Lex(rest).value)[1..] == Lex(rest).value;
      }
    }
  }

  predicate AllFaithful(ts: seq<Token>) {
    forall i :: 0 <= i < |ts| ==> Faithful(ts[i])
  }

  lemma LexNothing()
    ensures Lex("") == Some([])
  {}

  lemma LexFront(t: Token, rest: string)
    requires Spellable(t) && (t.Slash? ==> rest != "") && (rest != "" ==> Apart(t, rest[0]))
    ensures var o := Lex(Chars(t) + rest);
            if Faithful(t) then o == if t.Slash? || Lex(rest).None? then None else Some([t] + Lex(rest).value)
            else o.None? || (o.value != [] && o.value[0] != t)
  {
    hide Front, Apart, Spellable;
    assert (Chars(t) + rest)[|Chars(t)|..] == rest;
    if t.Slash? {
      SlashRead(rest);
    } else {
      TokenRead(t, rest);
    }
  }

  lemma SpacedRest(ts: seq<Token>)
    requires AllSpellable(ts) && Spaced(ts) && ts != []
    ensures AllSpellable(ts[1..]) && Spaced(ts[1..])
  {
    hide Apart, Chars, Spellable;
    var more := ts[1..];
    forall i | 0 <= i < |more| - 1
      ensures Apart(more[i], Chars(more[i + 1])[0])
    {
      assert more[i] == ts[i + 1] && more[i + 1] == ts[i + 1 + 1];
    }
  }

  lemma FirstChar(ts: seq<Token>)
    requires AllSpellable(ts) && ts != []
    ensures Spell(ts) != "" && Spell(ts)[0] == Chars(ts[0])[0]
  {}

  lemma SlashRead(rest: string)
    requires rest != "" && Apart(Slash, rest[0])
    ensures Front("/" + rest) == Bad
  {}

  // ---------- the text of an expression ----------

  predicate Opens(t: Token) {
    Operand(t) || PrefixOperator(t) || t.LParen?
  }

  predicate Closes(t: Token) {
    Operand(t) || t.RParen?
  }

  /** The operands can be spelled. */
  predicate Plain(t: Tree) {
    match t
    case Atom(k) => Spellable(k)
    case Prefix(_, a) => Plain(a)
    case Binary(l, _, r) => Plain(l) && Plain(r)
    case Group(i) => Plain(i)
  }

  predicate Divides(t: Tree) {
    match t
    case Atom(_) => false
    case Prefix(_, a) => Divides(a)
    case Binary(l, op, r) => op.Slash? || Divides(l) || Divides(r)
    case Group(i) => Divides(i)
  }

  /** No operand needs an escape. */
  predicate NeedsNone(t: Tree) {
    match t
    case Atom(k) => Faithful(k)
    case Prefix(_, a) => NeedsNone(a)
    case Binary(l, _, r) => NeedsNone(l) && NeedsNone(r)
    case Group(i) => NeedsNone(i)
  }

  ghost predicate Clear(ts: seq<Token>) {
    ts != [] && AllSpellable(ts) && Spaced(ts) && Opens(ts[0]) && Closes(ts[|ts| - 1])
  }

  /** What can start an operand continues no operator. */
  predicate Starts(c: char) {
    WordChar(c) || c in "\"'(-+~!"
  }

  lemma OpensWith(t: Token)
    requires Opens(t) && Spellable(t)
    ensures Starts(Chars(t)[0])
  {
    hide Decimal, Value10;
    if t.IntLit? {
      assert Digit(Chars(t)[0]);
    }
  }

  lemma OperatorsApart(op: Token, t: Token)
    requires (PrefixOperator(op) || Precedence(op) > 0) && Opens(t) && Spellable(t)
    ensures Spellable(op) && Apart(op, Chars(t)[0])
  {
    hide Chars, Opens;
    OpensWith(t);
  }

  lemma OperandsApart(t: Token, op: Token)
    requires Closes(t) && Spellable(t) && (Precedence(op) > 0 || op.RParen?)
    ensures Spellable(op) && Apart(t, Chars(op)[0])
  {}

  lemma SpacedJoin(a: seq<Token>, b: seq<Token>)
    requires AllSpellable(a) && AllSpellable(b) && Spaced(a) && Spaced(b) && a != [] && b != []
    requires Apart(a[|a| - 1], Chars(b[0])[0])
    ensures AllSpellable(a + b) && Spaced(a + b)
  {
    hide Apart, Chars, Spellable;
    var all := a + b;
    forall i | 0 <= i < |all| - 1
      ensures Apart(all[i], Chars(all[i + 1])[0])
    {
      if i >= |a| {
        assert all[i] == b[i - |a|] && all[i + 1] == b[i + 1 - |a|];
      }
    }
  }

  lemma PrefixClear(op: Token, ts: seq<Token>)
    requires PrefixOperator(op) && Clear(ts)
    ensures Clear([op] + ts)
  {
    OperatorsApart(op, ts[0]);
    SpacedJoin([op], ts);
  }

  lemma EnclosedClear(ts: seq<Token>)
    requires AllSpellable(ts) && ts != [] && Spaced(ts) && Opens(ts[0]) && Closes(ts[|ts| - 1])
    ensures Clear([LParen] + ts + [RParen])
  {
    OperandsApart(ts[|ts| - 1], RParen);
    SpacedJoin([LParen], ts);
    SpacedJoin([LParen] + ts, [RParen]);
  }

  lemma BinaryClear(l: seq<Token>, op: Token, r: seq<Token>)
    requires Clear(l) && Clear(r) && Precedence(op) > 0
    ensures Clear([LParen] + l + [op] + r + [RParen])
  {
    hide Apart, Chars, Spaced;
    OperandsApart(l[|l| - 1], op);
    OperatorsApart(op, r[0]);
    OneSpaced(op);
    SpacedJoin(l, [op]);
    SpacedJoin(l + [op], r);
    EnclosedClear(l + [op] + r);
    assert [LParen] + (l + [op] + r) + [RParen] == [LParen] + l + [op] + r + [RParen];
  }

  lemma OneSpaced(t: Token)
    requires Spellable(t)
    ensures AllSpellable([t]) && Spaced([t])
  {}

  /** In the text built no token runs into the next. */
  lemma {:induction false} TextClear(t: Tree)
    requires Grammatical(t) && Plain(t)
    ensures Clear(Text(t)) && (Slash in Text(t) <==> Divides(t))
    decreases t
  {
    hide Clear, Precedence, Spellable;
    match t
    case Atom(k) =>
      AtomClear(k);
    case Prefix(op, a) =>
      TextClear(a);
      PrefixClear(op, Text(a));
    case Binary(l, op, r) =>
      TextClear(l);
      TextClear(r);
      BinaryClear(Text(l), op, Text(r));
    case Group(i) =>
      TextClear(i);
      GroupClear(Text(i));
  }

  lemma AtomClear(k: Token)
    requires Operand(k) && Spellable(k)
    ensures Clear([k])
  {}

  lemma GroupClear(ts: seq<Token>)
    requires Clear(ts)
    ensures Clear([LParen] + ts + [RParen])
  {
    hide Spellable, Apart, Chars;
    EnclosedClear(ts);
  }

  lemma FaithfulConcat(a: seq<Token>, b: seq<Token>)
    ensures AllFaithful(a + b) <==> AllFaithful(a) && AllFaithful(b)
  {
    hide Faithful;
    if AllFaithful(a + b) {
      assert forall i :: 0 <= i < |a| ==> a[i] == (a + b)[i];
      assert forall i :: 0 <= i < |b| ==> b[i] == (a + b)[|a| + i];
    }
  }

  lemma FaithfulOperator(op: Token)
    requires !Operand(op)
    ensures AllFaithful([op])
  {}

  lemma FaithfulEnclosed(ts: seq<Token>)
    ensures AllFaithful([LParen] + ts + [RParen]) <==> AllFaithful(ts)
  {
    FaithfulConcat([LParen], ts);
    FaithfulConcat([LParen] + ts, [RParen]);
  }

  /** The text holds the operands of the tree. */
  lemma {:induction false} TextFaithful(t: Tree)
    requires Grammatical(t)
    ensures AllFaithful(Text(t)) <==> NeedsNone(t)
    decreases t
  {
    hide AllFaithful, Faithful;
    match t
    case Atom(k) =>
      OneFaithful(k);
    case Prefix(op, a) =>
      TextFaithful(a);
      FaithfulOperator(op);
      FaithfulConcat([op], Text(a));
    case Binary(l, op, r) =>
      TextFaithful(l);
      TextFaithful(r);
      FaithfulOperator(op);
      FaithfulConcat(Text(l), [op]);
      FaithfulConcat(Text(l) + [op], Text(r));
      FaithfulEnclosed(Text(l) + [op] + Text(r));
      assert [LParen] + (Text(l) + [op] + Text(r)) + [RParen] == Text(t);
    case Group(i) =>
      TextFaithful(i);
      FaithfulEnclosed(Text(i));
  }

  lemma OneFaithful(k: Token)
    ensures AllFaithful([k]) <==> Faithful(k)
  {
    assert [k][0] == k;
  }

  /** The text of an expression is read back as its tokens if and only if the expression does not
      divide and no operand needs an escape. */
  lemma TextLexes(t: Tree)
    requires Grammatical(t) && Plain(t)
    ensures AllSpellable(Text(t))
    ensures Lex(Spell(Text(t))) == Some(Text(t)) <==> !Divides(t) && NeedsNone(t)
    ensures Divides(t) && NeedsNone(t) ==> Lex(Spell(Text(t))) == None
  {
    hide Lex, Spell, Spaced, AllSpellable, AllFaithful, Divides, NeedsNone, Plain, Grammatical, Text;
    TextClear(t);
    TextFaithful(t);
    LexSpell(Text(t));
  }

  // ---------- from text to text ----------

  lemma FrontSlash(s: string)
    requires s != "" && Front(s).Token? && Front(s).token == Slash
    ensures |s| == 1
  {}

  /** A `/` that the lexer gives is the last character of the text. */
  lemma {:induction false} SlashIsLast(s: string, i: nat)
    requires Lex(s).Some? && i < |Lex(s).value| && Lex(s).value[i] == Slash
    ensures i == |Lex(s).value| - 1
    decreases |s|
  {
    hide Front;
    var f := Front(s);
    if f.Skipped? {
      SlashIsLast(s[f.size..], i);
    } else if i == 0 {
      FrontSlash(s);
    } else {
      SlashIsLast(s[f.size..], i - 1);
    }
  }

  predicate SlashAt(ts: seq<Token>, i: nat) {
    i < |ts| - 1 && ts[i] == Slash && ts[i + 1] != Eof
  }

  lemma SlashWithin(a: seq<Token>, b: seq<Token>, c: seq<Token>, i: nat)
    requires SlashAt(b, i)
    ensures SlashAt(a + b + c, |a| + i)
  {
    assert (a + b + c)[|a| + i] == b[i] && (a + b + c)[|a| + i + 1] == b[i + 1];
  }

  /** Where a tree divides, an operand follows the `/`. */
  lemma {:induction false} DividesAt(t: Tree) returns (i: nat)
    requires Grammatical(t) && Divides(t)
    ensures SlashAt(Yield(t), i)
    decreases t
  {
    hide SlashAt, Precedence, Operand, PrefixOperator;
    match t
    case Prefix(op, a) =>
      i := DividesAt(a);
      SlashWithin([op], Yield(a), [], i);
      assert [op] + Yield(a) + [] == [op] + Yield(a);
      i := 1 + i;
    case Group(inner) =>
      i := DividesAt(inner);
      SlashWithin([LParen], Yield(inner), [RParen], i);
      i := 1 + i;
    case Binary(l, op, r) =>
      if op.Slash? {
        i := |Yield(l)|;
        SlashHere(l, r);
      } else if Divides(l) {
        i := DividesAt(l);
        SlashWithin([], Yield(l), [op] + Yield(r), i);
        assert [] + Yield(l) + ([op] + Yield(r)) == Yield(t);
      } else {
        i := DividesAt(r);
        SlashWithin(Yield(l) + [op], Yield(r), [], i);
        assert Yield(l) + [op] + Yield(r) + [] == Yield(t);
        i := |Yield(l)| + 1 + i;
      }
  }

  lemma SlashHere(l: Tree, r: Tree)
    requires Grammatical(r)
    ensures SlashAt(Yield(l) + [Slash] + Yield(r), |Yield(l)|)
  {
    YieldStarts(r);
  }

  lemma {:induction false} YieldStarts(t: Tree)
    requires Grammatical(t)
    ensures Yield(t)[0] != Eof
    decreases t
  {
    if t.Binary? {
      YieldStarts(t.left);
    }
  }

  /** No text is read as an expression that divides, wherever in it the expression stands: the lexer
      refuses the text of `6/2` as it refuses every `/` that an operand could follow. */
  lemma NoTextDivides(s: string, k: nat)
    requires Lex(s).Some? && k <= |Lex(s).value| && Expression(Lex(s).value[k..] + [Eof], 0).Parsed?
    ensures !Divides(Expression(Lex(s).value[k..] + [Eof], 0).value)
  {
    var ts := Lex(s).value[k..];
    var e := Expression(ts + [Eof], 0);
    ExpressionSound(ts + [Eof], 0);
    if Divides(e.value) {
      var i := DividesAt(e.value);
      assert (ts + [Eof])[i] == Slash && (ts + [Eof])[i + 1] != Eof;
      SlashIsLast(s, k + i);
    }
  }

  lemma DivisionRefused()
    ensures Lex("6/2") == None
  {
    hide Number;
    var s := "6/2";
    assert Front("/2") == Bad;
    assert Lex("/2") == None;
    assert NumberLength(s) == 1 by {
      NumberEnds("6", "/2");
      assert "6" + "/2" == s;
    }
    NumberSize(s);
    assert s[1..] == "/2";
  }

  lemma NumberSize(s: string)
    requires s != "" && Digit(s[0])
    ensures Number(s).Bad? || (Number(s).Token? && Number(s).size == NumberLength(s))
  {}

  /** What the lexer gives can be spelled, apart from numbers with a point or an exponent. */
  lemma FrontSpellable(s: string)
    requires s != "" && Front(s).Token?
    ensures Spellable(Front(s).token) || Front(s).token.FloatLit?
  {
    if Letter(s[0]) {
      WordIsWord(s);
    }
  }

  lemma {:induction false} WordIsWord(s: string)
    ensures forall i :: 0 <= i < WordLength(s) ==> WordChar(s[i])
    decreases |s|
  {
    if s != "" && WordChar(s[0]) {
      WordIsWord(s[1..]);
      assert forall i :: 0 < i < WordLength(s) ==> s[i] == s[1..][i - 1];
    }
  }

  lemma {:induction false} LexedSpellable(s: string)
    requires Lex(s).Some?
    ensures forall t :: t in Lex(s).value ==> Spellable(t) || t.FloatLit?
    decreases |s|
  {
    hide Front, Spellable;
    if s != "" {
      var f := Front(s);
      LexedSpellable(s[f.size..]);
      if f.Token? {
        FrontSpellable(s);
      }
    }
  }

  predicate HasFloat(t: Tree) {
    match t
    case Atom(k) => k.FloatLit?
    case Prefix(_, a) => HasFloat(a)
    case Binary(l, _, r) => HasFloat(l) || HasFloat(r)
    case Group(i) => HasFloat(i)
  }

  lemma {:induction false} YieldPlain(t: Tree)
    requires forall k :: k in Yield(t) ==> Spellable(k) || k.FloatLit? || k.Eof?
    requires Grammatical(t) && !HasFloat(t)
    ensures Plain(t)
    decreases t
  {
    hide Spellable;
    match t
    case Atom(k) =>
      assert k in Yield(t);
    case Prefix(_, a) => YieldPlain(a);
    case Group(i) => YieldPlain(i);
    case Binary(l, _, r) =>
      YieldPlain(l);
      YieldPlain(r);
  }

  lemma LexedPlain(s: string, k: nat)
    requires Lex(s).Some? && k <= |Lex(s).value| && Expression(Lex(s).value[k..] + [Eof], 0).Parsed?
    requires !HasFloat(Expression(Lex(s).value[k..] + [Eof], 0).value)
    ensures Plain(Expression(Lex(s).value[k..] + [Eof], 0).value)
  {
    hide Expression, Lex, Spellable, HasFloat, Plain, Grammatical;
    var ts := Lex(s).value[k..];
    var e := Expression(ts + [Eof], 0);
    LexedSpellable(s);
    ExpressionSound(ts + [Eof], 0);
    assert forall u :: u in Yield(e.value) ==> u in ts + [Eof];
    YieldPlain(e.value);
  }

  /** For an expression that stands anywhere in any text, its operands no numbers with a point or an
      exponent: the characters of its text are read back if and only if no operand needs an escape.
      Then they parse to the same operators and operands, and print the same. */
  lemma NormalFormText(s: string, k: nat)
    requires Lex(s).Some? && k <= |Lex(s).value| && Expression(Lex(s).value[k..] + [Eof], 0).Parsed?
    requires !HasFloat(Expression(Lex(s).value[k..] + [Eof], 0).value)
    ensures var t := Expression(Lex(s).value[k..] + [Eof], 0).value;
            && AllSpellable(Text(t))
            && (Lex(Spell(Text(t))) == Some(Text(t)) <==> NeedsNone(t))
            && (NeedsNone(t) ==>
                  var again := Expression(Lex(Spell(Text(t))).value + [Eof], 0);
                  && again.Parsed? && again.rest == [Eof] && Bare(again.value) == Bare(t)
                  && Text(again.value) == Text(t))
  {
    hide Expression, Text, Bare, Value, Lex, Spell, AllSpellable, Grammatical, Plain, Divides, NeedsNone, HasFloat;
    var ts := Lex(s).value[k..] + [Eof];
    LexedPlain(s, k);
    NoTextDivides(s, k);
    ExpressionSound(ts, 0);
    TextLexes(Expression(ts, 0).value);
    NormalForm(ts, [Eof], k => k, (k, v) => v, (v, k, w) => k);
  }
}
