/** Constant expressions of AIDL (crates/aidl-rs/src/parser.rs:438-452, 568-638): the precedence-climbing
    parser as a function, the grammar it accepts, and the fully parenthesised text it builds. */
module AidlExpression {

  /** Tokens; the literals other than integers by their spelling. */
  datatype Token =
    | Ident(name: string) | StringLit(text: string) | CharLit(text: string)
    | IntLit(value: int) | FloatLit(text: string)
    | At | Semi | Comma | Dot | Colon | Equals
    | LBrace | RBrace | LParen | RParen | LBracket | RBracket | LAngle | RAngle
    | Plus | Minus | Star | Slash | Percent | Amp | Pipe | Caret | Tilde | Bang
    | AndAnd | OrOr | EqEq | NotEq | LAngleAngle | RAngleAngle | LessEqual | GreaterEqual | Eof

  datatype Expectation = AnOperand | AnIdentifier | Exactly(token: Token)

  datatype ParseError = ExpectedToken(expected: Expectation, found: Token) | Custom(message: string)

  /** What a parser step gives, with the tokens it leaves. */
  datatype Outcome<T> = Parsed(value: T, rest: seq<Token>) | Failed(error: ParseError)

  /** The next token; past the end of the list the last one, `Eof`, is seen again. */
  function Peek(ts: seq<Token>): Token {
    if ts == [] then Eof else ts[0]
  }

  function Skip(ts: seq<Token>): seq<Token> {
    if ts == [] then [] else ts[1..]
  }

  predicate Operand(t: Token) {
    t.Ident? || t.StringLit? || t.CharLit? || t.IntLit? || t.FloatLit?
  }

  predicate PrefixOperator(t: Token) {
    t.Minus? || t.Plus? || t.Tilde? || t.Bang?
  }

  /** How tightly a binary operator binds; -1 for a token that is none. */
  function Precedence(t: Token): (p: int)
    ensures -1 <= p <= 10 && p != 0
  {
    match t
    case OrOr => 1
    case AndAnd => 2
    case Pipe => 3
    case Caret => 4
    case Amp => 5
    case EqEq | NotEq => 6
    case LAngle | RAngle | LessEqual | GreaterEqual => 7
    case LAngleAngle | RAngleAngle => 8
    case Plus | Minus => 9
    case Star | Slash | Percent => 10
    case _ => -1
  }

  type U8 = x: int | 0 <= x < 256

  const PREFIX: U8 := 10

  // ---------- trees ----------

  datatype Tree =
    | Atom(token: Token)
    | Prefix(op: Token, arg: Tree)
    | Binary(left: Tree, op: Token, right: Tree)
    | Group(inner: Tree)

  /** The tokens a tree is read from. */
  function Yield(t: Tree): (ts: seq<Token>)
    ensures ts != []
  {
    match t
    case Atom(k) => [k]
    case Prefix(op, a) => [op] + Yield(a)
    case Binary(l, op, r) => Yield(l) + [op] + Yield(r)
    case Group(i) => [LParen] + Yield(i) + [RParen]
  }

  /** The operators and operands, without the parentheses. */
  function Bare(t: Tree): Tree {
    match t
    case Atom(k) => t
    case Prefix(op, a) => Prefix(op, Bare(a))
    case Binary(l, op, r) => Binary(Bare(l), op, Bare(r))
    case Group(i) => Bare(i)
  }

  /** The value under some reading of the operands and operators. */
  function Value<V>(t: Tree, operand: Token -> V, prefix: (Token, V) -> V, binary: (V, Token, V) -> V): V {
    match t
    case Atom(k) => operand(k)
    case Prefix(op, a) => prefix(op, Value(a, operand, prefix, binary))
    case Binary(l, op, r) => binary(Value(l, operand, prefix, binary), op, Value(r, operand, prefix, binary))
    case Group(i) => Value(i, operand, prefix, binary)
  }

  // ---------- the grammar ----------

  function Min(a: int, b: int): int {
    if a < b then a else b
  }

  /** The loosest binary operator of a tree outside parentheses and prefixes. */
  function Level(t: Tree): int {
    if t.Binary? then Precedence(t.op) else 256
  }

  /** An operator may follow a tree when it binds less tightly than this: one that binds
      as tightly or more belongs to an operand inside the tree. */
  function Bound(t: Tree): int {
    match t
    case Atom(_) => 11
    case Group(_) => 11
    case Prefix(_, a) => Min(PREFIX, Bound(a))
    case Binary(_, op, r) => Min(Precedence(op) + 1, Bound(r))
  }

  /** Binary operators associate to the left, bind by precedence, and a prefix operator
      takes the multiplicative operators after it with its operand. */
  predicate Grammatical(t: Tree) {
    match t
    case Atom(k) => Operand(k)
    case Group(i) => Grammatical(i)
    case Prefix(op, a) => PrefixOperator(op) && Grammatical(a) && Level(a) >= PREFIX
    case Binary(l, op, r) =>
      && Precedence(op) > 0 && Grammatical(l) && Grammatical(r)
      && Precedence(op) < Bound(l) && Level(r) > Precedence(op)
  }

  /** `t` reads as an expression from `ts`, `rest` follows, and reading cannot go on. */
  ghost predicate Reads(ts: seq<Token>, min: U8, t: Tree, rest: seq<Token>) {
    && ts == Yield(t) + rest && Grammatical(t) && Level(t) >= min
    && Precedence(Peek(rest)) < min && Precedence(Peek(rest)) < Bound(t)
  }

  // ---------- the parser ----------

  /** `parse_expression_bp`. */
  function Expression(ts: seq<Token>, min: U8): (r: Outcome<Tree>)
    ensures r.Parsed? ==> |r.rest| < |ts|
    decreases |ts|, 1
  {
    match Primary(ts)
    case Failed(e) => Failed(e)
    case Parsed(left, rest) => More(left, rest, min)
  }

  function Primary(ts: seq<Token>): (r: Outcome<Tree>)
    ensures r.Parsed? ==> |r.rest| < |ts|
    decreases |ts|, 0
  {
    var tok := Peek(ts);
    if Operand(tok) then Parsed(Atom(tok), ts[1..])
    else if PrefixOperator(tok) then
      match Expression(ts[1..], PREFIX)
      case Failed(e) => Failed(e)
      case Parsed(a, rest) => Parsed(Prefix(tok, a), rest)
    else if tok == LParen then
      match Expression(ts[1..], 0)
      case Failed(e) => Failed(e)
      case Parsed(i, rest) =>
        if Peek(rest) == RParen then Parsed(Group(i), rest[1..])
        else Failed(ExpectedToken(Exactly(RParen), Peek(rest)))
    else Failed(ExpectedToken(AnOperand, tok))
  }

  /** The loop over operators that bind at least as tightly as `min`. */
  function More(left: Tree, ts: seq<Token>, min: U8): (r: Outcome<Tree>)
    ensures r.Parsed? ==> |r.rest| <= |ts|
    decreases |ts|, 2
  {
    var p := Precedence(Peek(ts));
    if p < min then Parsed(left, ts)
    else
      match Expression(ts[1..], p + 1)
      case Failed(e) => Failed(e)
      case Parsed(right, rest) => More(Binary(left, ts[0], right), rest, min)
  }

  // ---------- the parser reads exactly the grammar ----------

  lemma {:induction false} ExpressionSound(ts: seq<Token>, min: U8)
    requires Expression(ts, min).Parsed?
    ensures Reads(ts, min, Expression(ts, min).value, Expression(ts, min).rest)
    decreases |ts|, 1
  {
    PrimarySound(ts);
    var p := Primary(ts);
    MoreSound(p.value, p.rest, min);
  }

  lemma {:induction false} PrimarySound(ts: seq<Token>)
    requires Primary(ts).Parsed?
    ensures var t, rest := Primary(ts).value, Primary(ts).rest;
            ts == Yield(t) + rest && Grammatical(t) && Level(t) == 256 && Precedence(Peek(rest)) < Bound(t)
    decreases |ts|, 0
  {
    var tok := Peek(ts);
    assert ts == [tok] + ts[1..];
    if PrefixOperator(tok) {
      ExpressionSound(ts[1..], PREFIX);
      var e := Expression(ts[1..], PREFIX);
      assert [tok] + (Yield(e.value) + e.rest) == [tok] + Yield(e.value) + e.rest;
    } else if tok == LParen {
      ExpressionSound(ts[1..], 0);
      var e := Expression(ts[1..], 0);
      assert e.rest == [RParen] + e.rest[1..];
      assert [LParen] + (Yield(e.value) + ([RParen] + e.rest[1..])) ==
             [LParen] + Yield(e.value) + [RParen] + e.rest[1..];
    }
  }

  lemma Regroup<T>(a: seq<T>, b: seq<T>, c: seq<T>, d: seq<T>)
    ensures a + (b + (c + d)) == a + b + c + d
  {}

  lemma {:induction false} MoreSound(left: Tree, ts: seq<Token>, min: U8)
    requires Grammatical(left) && Level(left) >= min && Precedence(Peek(ts)) < Bound(left)
    requires More(left, ts, min).Parsed?
    ensures Reads(Yield(left) + ts, min, More(left, ts, min).value, More(left, ts, min).rest)
    decreases |ts|, 2
  {
    hide Operand, PrefixOperator, Primary, Expression;
    var p := Precedence(Peek(ts));
    if p >= min {
      ExpressionSound(ts[1..], p + 1);
      var e := Expression(ts[1..], p + 1);
      var t := Binary(left, ts[0], e.value);
      assert Yield(left) + ts == Yield(t) + e.rest by {
        assert ts == [ts[0]] + (Yield(e.value) + e.rest);
        Regroup(Yield(left), [ts[0]], Yield(e.value), e.rest);
      }
      MoreSound(t, e.rest, min);
    }
  }

  /** Reading a grammatical tree builds that tree and goes on from it. */
  lemma {:induction false} ExpressionReads(t: Tree, rest: seq<Token>, min: U8)
    requires Grammatical(t) && Level(t) >= min && Precedence(Peek(rest)) < Bound(t)
    ensures Expression(Yield(t) + rest, min) == More(t, rest, min)
    decreases t
  {
    hide Precedence, Expression, More, Operand, PrefixOperator, Yield;
    match t
    case Atom(k) =>
      AtomReads(k, rest, min);
    case Prefix(op, a) =>
      ExpressionReads(a, rest, PREFIX);
      PrefixReads(op, a, rest, min);
    case Group(i) =>
      BoundPositive(i);
      ParenthesisEnds(rest);
      ExpressionReads(i, [RParen] + rest, 0);
      GroupReads(i, rest, min);
    case Binary(l, op, r) =>
      ExpressionReads(l, [op] + (Yield(r) + rest), min);
      ExpressionReads(r, rest, Precedence(op) + 1);
      BinaryReads(l, op, r, rest, min);
  }

  lemma AtomReads(k: Token, rest: seq<Token>, min: U8)
    requires Operand(k)
    ensures Expression(Yield(Atom(k)) + rest, min) == More(Atom(k), rest, min)
  {
    hide More;
    assert (Yield(Atom(k)) + rest)[1..] == rest;
  }

  lemma PrefixReads(op: Token, a: Tree, rest: seq<Token>, min: U8)
    requires PrefixOperator(op) && Precedence(Peek(rest)) < PREFIX
    requires Expression(Yield(a) + rest, PREFIX) == More(a, rest, PREFIX)
    ensures Expression(Yield(Prefix(op, a)) + rest, min) == More(Prefix(op, a), rest, min)
  {
    hide Precedence;
    var ts := Yield(Prefix(op, a)) + rest;
    assert ts[0] == op && ts[1..] == Yield(a) + rest;
  }

  lemma ParenthesisEnds(rest: seq<Token>)
    ensures Precedence(Peek([RParen] + rest)) < 0
  {}

  lemma GroupReads(i: Tree, rest: seq<Token>, min: U8)
    requires Expression(Yield(i) + ([RParen] + rest), 0) == More(i, [RParen] + rest, 0)
    ensures Expression(Yield(Group(i)) + rest, min) == More(Group(i), rest, min)
  {
    var ts := Yield(Group(i)) + rest;
    assert ts[0] == LParen && ts[1..] == Yield(i) + ([RParen] + rest);
    assert ([RParen] + rest)[1..] == rest;
  }

  lemma BinaryReads(l: Tree, op: Token, r: Tree, rest: seq<Token>, min: U8)
    requires Precedence(op) >= min && Precedence(op) > 0 && Precedence(Peek(rest)) <= Precedence(op)
    requires var after := [op] + (Yield(r) + rest); Expression(Yield(l) + after, min) == More(l, after, min)
    requires Expression(Yield(r) + rest, Precedence(op) + 1) == More(r, rest, Precedence(op) + 1)
    ensures Expression(Yield(Binary(l, op, r)) + rest, min) == More(Binary(l, op, r), rest, min)
  {
    var after := [op] + (Yield(r) + rest);
    Regroup(Yield(l), [op], Yield(r), rest);
    assert after[1..] == Yield(r) + rest;
  }

  /** The parser gives `t` and leaves `rest` if and only if the grammar reads them so. */
  lemma ParserIsGrammar(ts: seq<Token>, min: U8, t: Tree, rest: seq<Token>)
    ensures Expression(ts, min) == Parsed(t, rest) <==> Reads(ts, min, t, rest)
  {
    if Expression(ts, min) == Parsed(t, rest) {
      ExpressionSound(ts, min);
    }
    if Reads(ts, min, t, rest) {
      ExpressionReads(t, rest, min);
    }
  }

  /** The grammar is unambiguous. */
  lemma Unambiguous(t: Tree, u: Tree)
    requires Grammatical(t) && Grammatical(u) && Yield(t) == Yield(u)
    ensures t == u
  {
    BoundPositive(t);
    BoundPositive(u);
    ExpressionReads(t, [], 0);
    ExpressionReads(u, [], 0);
  }

  // ---------- how operators bind ----------

  /** The binary operators of ten levels, the loosest first. */
  function Operators(level: nat): set<Token> {
    match level
    case 0 => {OrOr}
    case 1 => {AndAnd}
    case 2 => {Pipe}
    case 3 => {Caret}
    case 4 => {Amp}
    case 5 => {EqEq, NotEq}
    case 6 => {LAngle, RAngle, LessEqual, GreaterEqual}
    case 7 => {LAngleAngle, RAngleAngle}
    case 8 => {Plus, Minus}
    case 9 => {Star, Slash, Percent}
    case _ => {}
  }

  lemma LevelOf(op: Token, i: nat)
    requires op in Operators(i)
    ensures Precedence(op) == i + 1
  {}

  lemma LevelFound(op: Token)
    ensures Precedence(op) > 0 ==> op in Operators(Precedence(op) - 1)
  {}

  /** Of two operators the one of a later level takes its operands first, else the one on the left. */
  lemma TwoOperators(a: Token, op: Token, b: Token, op': Token, c: Token, i: nat, j: nat)
    requires Operand(a) && Operand(b) && Operand(c)
    requires op in Operators(i) && op' in Operators(j)
    ensures Expression([a, op, b, op', c], 0) ==
            Parsed(if i < j then Binary(Atom(a), op, Binary(Atom(b), op', Atom(c)))
                   else Binary(Binary(Atom(a), op, Atom(b)), op', Atom(c)), [])
  {
    hide Precedence, Expression, Operators;
    LevelOf(op, i);
    LevelOf(op', j);
    var ts := [a, op, b, op', c];
    var l, r := Binary(Atom(a), op, Atom(b)), Binary(Atom(b), op', Atom(c));
    if i < j {
      assert Yield(r) == [b, op', c];
      assert ts == Yield(Binary(Atom(a), op, r)) + [];
      EndReads(ts, Binary(Atom(a), op, r));
    } else {
      assert Yield(l) == [a, op, b];
      assert ts == Yield(Binary(l, op', Atom(c))) + [];
      EndReads(ts, Binary(l, op', Atom(c)));
    }
  }

  lemma EndReads(ts: seq<Token>, t: Tree)
    requires Grammatical(t) && Yield(t) == ts
    ensures Expression(ts, 0) == Parsed(t, [])
  {
    BoundPositive(t);
    ParserIsGrammar(ts, 0, t, []);
    assert ts == Yield(t) + [];
  }

  /** A prefix operator takes the operators of the last level with its operand, and no others. */
  lemma PrefixAndOperator(p: Token, a: Token, op: Token, b: Token, i: nat)
    requires p in {Minus, Plus, Tilde, Bang} && Operand(a) && Operand(b) && op in Operators(i)
    ensures Expression([p, a, op, b], 0) ==
            Parsed(if i == 9 then Prefix(p, Binary(Atom(a), op, Atom(b)))
                   else Binary(Prefix(p, Atom(a)), op, Atom(b)), [])
  {
    hide Precedence, Expression, Operators;
    LevelOf(op, i);
    var ts := [p, a, op, b];
    if i == 9 {
      assert Yield(Binary(Atom(a), op, Atom(b))) == [a, op, b];
      EndReads(ts, Prefix(p, Binary(Atom(a), op, Atom(b))));
    } else {
      assert Yield(Prefix(p, Atom(a))) == [p, a];
      EndReads(ts, Binary(Prefix(p, Atom(a)), op, Atom(b)));
    }
  }

  /** Any other token after an operand ends the expression. */
  lemma OthersEnd(a: Token, x: Token, rest: seq<Token>)
    requires Operand(a) && forall i :: x !in Operators(i)
    ensures Expression([a, x] + rest, 0) == Parsed(Atom(a), [x] + rest)
  {
    LevelFound(x);
    assert ([a, x] + rest)[1..] == [x] + rest;
  }

  /** What an expression starts with: an operand, one of four prefix operators, or a parenthesis. */
  lemma FirstToken(ts: seq<Token>)
    requires Expression(ts, 0).Parsed?
    ensures ts != []
    ensures || ts[0].Ident? || ts[0].StringLit? || ts[0].CharLit? || ts[0].IntLit? || ts[0].FloatLit?
            || ts[0] in {Minus, Plus, Tilde, Bang, LParen}
  {}

  /** Without one of these, the token found is reported; and so is the one found for a missing `)`. */
  lemma Refusals(ts: seq<Token>, a: Token, x: Token, rest: seq<Token>)
    requires !Operand(Peek(ts)) && Peek(ts) !in {Minus, Plus, Tilde, Bang, LParen}
    requires Operand(a) && x != RParen && forall i :: x !in Operators(i)
    ensures Expression(ts, 0) == Failed(ExpectedToken(AnOperand, Peek(ts)))
    ensures Expression([LParen, a, x] + rest, 0) == Failed(ExpectedToken(Exactly(RParen), x))
  {
    OthersEnd(a, x, rest);
    assert ([LParen, a, x] + rest)[1..] == [a, x] + rest;
  }

  /** A literal or a name by itself is an expression, and so is one after a prefix operator or in parentheses. */
  lemma Smallest(a: Token, p: Token)
    requires a.Ident? || a.StringLit? || a.CharLit? || a.IntLit? || a.FloatLit?
    requires p in {Minus, Plus, Tilde, Bang}
    ensures Expression([a], 0) == Parsed(Atom(a), [])
    ensures Expression([p, a], 0) == Parsed(Prefix(p, Atom(a)), [])
    ensures Expression([LParen, a, RParen], 0) == Parsed(Group(Atom(a)), [])
  {
    hide Expression;
    EndReads([a], Atom(a));
    EndReads([p, a], Prefix(p, Atom(a)));
    EndReads([LParen, a, RParen], Group(Atom(a)));
  }

  // ---------- the text ----------

  /** The text built while parsing, as the tokens it spells. */
  function Text(t: Tree): (ts: seq<Token>)
    ensures ts != []
  {
    match t
    case Atom(k) => [k]
    case Prefix(op, a) => [op] + Text(a)
    case Binary(l, op, r) => [LParen] + Text(l) + [op] + Text(r) + [RParen]
    case Group(i) => Enclosed(Text(i))
  }

  /** Parentheses around a value, unless it begins and ends with them. */
  function Enclosed(value: seq<Token>): (ts: seq<Token>)
    requires value != []
    ensures ts != []
  {
    if value[0] == LParen && value[|value| - 1] == RParen then value else [LParen] + value + [RParen]
  }

  /** The tree with each binary operation in one pair of parentheses, and none doubled. */
  function Normal(t: Tree): Tree {
    match t
    case Atom(_) => t
    case Prefix(op, a) => Prefix(op, Normal(a))
    case Binary(l, op, r) => Group(Binary(Normal(l), op, Normal(r)))
    case Group(i) => if Normal(i).Group? then Normal(i) else Group(Normal(i))
  }

  /** Looking at the first and last character is enough: a text that begins with a parenthesis
      is one parenthesised group. */
  lemma {:induction false} TextIsNormal(t: Tree)
    requires Grammatical(t)
    ensures Text(t) == Yield(Normal(t)) && Grammatical(Normal(t)) && Level(Normal(t)) == 256
    ensures Normal(t).Prefix? <==> t.Prefix?
    ensures Text(t)[0] == LParen <==> Normal(t).Group?
    decreases t
  {
    hide Precedence, Operand, PrefixOperator;
    match t
    case Atom(_) =>
      AtomIsNoParenthesis(t);
    case Prefix(_, a) =>
      AtomIsNoParenthesis(t);
      TextIsNormal(a);
    case Group(i) =>
      TextIsNormal(i);
    case Binary(l, op, r) =>
      TextIsNormal(l);
      TextIsNormal(r);
      NormalBound(l);
      assert [LParen] + Text(l) + [op] + Text(r) + [RParen] == [LParen] + (Text(l) + [op] + Text(r)) + [RParen];
  }

  lemma AtomIsNoParenthesis(t: Tree)
    requires Grammatical(t) && (t.Atom? || t.Prefix?)
    ensures Text(t)[0] != LParen
  {}

  lemma {:induction false} NormalBound(t: Tree)
    requires Grammatical(t)
    ensures Bound(t) <= Bound(Normal(t))
    decreases t
  {
    match t
    case Prefix(_, a) => NormalBound(a);
    case Group(i) =>
    case _ =>
  }

  lemma {:induction false} NormalAgain(t: Tree)
    ensures Normal(Normal(t)) == Normal(t) && Bare(Normal(t)) == Bare(t)
    decreases t
  {
    match t
    case Atom(_) =>
    case Prefix(_, a) => NormalAgain(a);
    case Group(i) => NormalAgain(i);
    case Binary(l, _, r) =>
      NormalAgain(l);
      NormalAgain(r);
  }

  /** The text of an expression reads as the same operators and operands, so it has the same
      value whatever they mean, and reading it again gives the same text. */
  lemma NormalForm<V>(ts: seq<Token>, after: seq<Token>, operand: Token -> V, prefix: (Token, V) -> V,
                      binary: (V, Token, V) -> V)
    requires Expression(ts, 0).Parsed? && Precedence(Peek(after)) < 0
    ensures var t := Expression(ts, 0).value;
            var again := Expression(Text(t) + after, 0);
            && again.Parsed? && again.rest == after
            && Text(again.value) == Text(t)
            && Bare(again.value) == Bare(t)
            && Value(again.value, operand, prefix, binary) == Value(t, operand, prefix, binary)
  {
    var t := Expression(ts, 0).value;
    ExpressionSound(ts, 0);
    TextIsNormal(t);
    BoundPositive(Normal(t));
    ExpressionReads(Normal(t), after, 0);
    NormalAgain(t);
    TextIsNormal(Normal(t));
    ValueOfBare(t, operand, prefix, binary);
    ValueOfBare(Normal(t), operand, prefix, binary);
  }

  lemma {:induction false} BoundPositive(t: Tree)
    requires Grammatical(t)
    ensures Bound(t) > 0
    decreases t
  {
    match t
    case Prefix(_, a) => BoundPositive(a);
    case Binary(_, _, r) => BoundPositive(r);
    case _ =>
  }

  lemma {:induction false} ValueOfBare<V>(t: Tree, operand: Token -> V, prefix: (Token, V) -> V,
                                          binary: (V, Token, V) -> V)
    ensures Value(Bare(t), operand, prefix, binary) == Value(t, operand, prefix, binary)
    decreases t
  {
    match t
    case Atom(_) =>
    case Prefix(_, a) => ValueOfBare(a, operand, prefix, binary);
    case Group(i) => ValueOfBare(i, operand, prefix, binary);
    case Binary(l, _, r) =>
      ValueOfBare(l, operand, prefix, binary);
      ValueOfBare(r, operand, prefix, binary);
  }
}
