/** The parser object of crates/aidl-rs/src/parser.rs:423-499, 528-638, 893-986: a token list, which a
    split `>>` makes longer, and a position in it. */
module AidlParser {
  import opened Wrappers
  import opened AidlExpression
  import opened AidlTypes

  type ParseResult<T> = Result<T, ParseError>

  /** A method's result and the tokens it left are those of the specification. */
  ghost predicate Agrees<T(!new)>(o: Outcome<T>, r: ParseResult<T>, rest: seq<Token>) {
    match o
    case Parsed(value, left) => r == Ok(value) && rest == left
    case Failed(e) => r == Err(e)
  }

  /** The same, for a method that gives the text of the specification's tree. */
  ghost predicate Spells(o: Outcome<Tree>, r: ParseResult<seq<Token>>, rest: seq<Token>) {
    match o
    case Parsed(t, left) => r == Ok(Text(t)) && rest == left
    case Failed(e) => r == Err(e)
  }

  /** The text of an expression in place of its tree. */
  function Printed(o: Outcome<Tree>): Outcome<seq<Token>> {
    match o
    case Parsed(t, rest) => Parsed(Text(t), rest)
    case Failed(e) => Failed(e)
  }

  /** The text of a parenthesised expression, from after its `(`. */
  function Parenthesised(ts: seq<Token>): Outcome<seq<Token>> {
    match Expression(ts, 0)
    case Failed(e) => Failed(e)
    case Parsed(i, rest) =>
      if Peek(rest) == RParen then Parsed(Enclosed(Text(i)), rest[1..])
      else Failed(ExpectedToken(Exactly(RParen), Peek(rest)))
  }

  lemma ParenthesisedRead(ts: seq<Token>, r: ParseResult<seq<Token>>, mid: seq<Token>, close: ParseResult<Token>,
                          rest: seq<Token>)
    requires Spells(Expression(ts, 0), r, mid) && (r.Ok? ==> Agrees(Expect(RParen, mid), close, rest))
    ensures r.Err? ==> Parenthesised(ts) == Failed(r.error)
    ensures r.Ok? && close.Err? ==> Parenthesised(ts) == Failed(close.error)
    ensures r.Ok? && close.Ok? ==> r.value != [] && Parenthesised(ts) == Parsed(Enclosed(r.value), rest)
  {
    hide Expression, Text;
  }

  /** The text of what stands at the front, by its first token. */
  lemma PrimaryPrinted(ts: seq<Token>)
    ensures var t := Peek(ts);
            && (Operand(t) ==> Printed(Primary(ts)) == Parsed([t], ts[1..]))
            && (PrefixOperator(t) ==> Printed(Primary(ts)) == match Expression(ts[1..], PREFIX)
                                                              case Parsed(a, rest) => Parsed([t] + Text(a), rest)
                                                              case Failed(e) => Failed(e))
            && (t == LParen ==> Printed(Primary(ts)) == Parenthesised(ts[1..]))
            && (!Operand(t) && !PrefixOperator(t) && t != LParen ==>
                  Printed(Primary(ts)) == Failed(ExpectedToken(AnOperand, t)))
  {}

  lemma MoreGoesOn(left: Tree, ts: seq<Token>, min: U8)
    requires Precedence(Peek(ts)) >= min
    ensures var right := Expression(ts[1..], Precedence(Peek(ts)) + 1);
            && (right.Failed? ==> More(left, ts, min) == Failed(right.error))
            && (right.Parsed? ==> More(left, ts, min) == More(Binary(left, ts[0], right.value), right.rest, min))
  {}

  /** With one more operation read, reading goes on from the larger tree, or fails as it does. */
  ghost predicate GoesOn(tree: Tree, ts: seq<Token>, min: U8, r: ParseResult<seq<Token>>, whole: Tree,
                         rest: seq<Token>) {
    && More(tree, ts, min) == (if r.Err? then Failed(r.error) else More(whole, rest, min))
    && (r.Ok? ==> r.value == Text(whole))
  }

  lemma OperationRead(tree: Tree, ts: seq<Token>, min: U8, right: ParseResult<seq<Token>>, rest: seq<Token>)
    returns (whole: Tree)
    requires ts != [] && Precedence(ts[0]) >= min && Spells(Expression(ts[1..], Precedence(ts[0]) + 1), right, rest)
    ensures GoesOn(tree, ts, min,
                   if right.Ok? then Ok([LParen] + Text(tree) + [ts[0]] + right.value + [RParen]) else right,
                   whole, rest)
  {
    var o := Expression(ts[1..], Precedence(ts[0]) + 1);
    whole := if o.Parsed? then Binary(tree, ts[0], o.value) else tree;
    MoreGoesOn(tree, ts, min);
  }

  lemma Shorter(ts: seq<Token>, min: U8, r: ParseResult<seq<Token>>, rest: seq<Token>)
    requires ts != [] && Spells(Expression(ts[1..], min), r, rest)
    ensures r.Ok? ==> |rest| < |ts|
  {}

  function Prepended<T>(xs: seq<T>, o: Outcome<seq<T>>): Outcome<seq<T>> {
    match o
    case Parsed(more, rest) => Parsed(xs + more, rest)
    case Failed(e) => Failed(e)
  }

  lemma PrependedNothing<T>(o: Outcome<seq<T>>)
    ensures Prepended([], o) == o
  {
    if o.Parsed? {
      assert [] + o.value == o.value;
    }
  }

  lemma PrependedOne<T>(xs: seq<T>, x: T, o: Outcome<seq<T>>)
    ensures Prepended(xs + [x], o) == Prepended(xs, Prepended([x], o))
  {
    if o.Parsed? {
      assert xs + [x] + o.value == xs + ([x] + o.value);
    }
  }

  lemma ArgumentsStep(args: seq<(Option<string>, seq<Token>)>, ts: seq<Token>)
    requires Peek(ts) != RParen
    ensures var o := Argument(ts);
            && (o.Failed? ==> Prepended(args, Arguments(ts)) == Failed(o.error))
            && (o.Parsed? && Peek(o.rest) != Comma ==>
                  Prepended(args, Arguments(ts)) == Parsed(args + [o.value], o.rest))
            && (o.Parsed? && Peek(o.rest) == Comma ==>
                  && Weight(o.rest[1..]) < Weight(ts)
                  && Prepended(args, Arguments(ts)) == Prepended(args + [o.value], Arguments(o.rest[1..])))
  {
    var o := Argument(ts);
    if o.Parsed? && Peek(o.rest) == Comma {
      PrependedOne(args, o.value, Arguments(o.rest[1..]));
    }
  }

  lemma TypeListStep(types: seq<AidlType>, ts: seq<Token>)
    requires Peek(ts) != RAngle
    ensures var o := Type(ts);
            && (o.Failed? ==> Prepended(types, TypeList(ts)) == Failed(o.error))
            && (o.Parsed? && Peek(o.rest) != Comma ==>
                  Prepended(types, TypeList(ts)) == Parsed(types + [o.value], o.rest))
            && (o.Parsed? && Peek(o.rest) == Comma ==>
                  && Weight(o.rest[1..]) < Weight(ts)
                  && Prepended(types, TypeList(ts)) == Prepended(types + [o.value], TypeList(o.rest[1..])))
  {
    var o := Type(ts);
    if o.Parsed? && Peek(o.rest) == Comma {
      PrependedOne(types, o.value, TypeList(o.rest[1..]));
    }
  }

  function Raised(n: nat, o: Outcome<nat>): Outcome<nat> {
    match o
    case Parsed(more, rest) => Parsed(n + more, rest)
    case Failed(e) => Failed(e)
  }

  lemma {:induction false} DimensionsStep(n: nat, ts: seq<Token>)
    ensures Raised(0, Dimensions(ts)) == Dimensions(ts)
    ensures Peek(ts) != LBracket ==> Raised(n, Dimensions(ts)) == Parsed(n, ts)
    ensures Peek(ts) == LBracket ==>
              var o := Expect(RBracket, ts[1..]);
              Raised(n, Dimensions(ts)) == if o.Parsed? then Raised(n + 1, Dimensions(o.rest)) else Failed(o.error)
  {
    hide Weight;
    if Peek(ts) == LBracket {
      hide Expect;
      var o := Expect(RBracket, ts[1..]);
      assert Dimensions(ts) == if o.Parsed? then Raised(1, Dimensions(o.rest)) else Failed(o.error);
    }
  }

  lemma WeightSkip(ts: seq<Token>)
    requires ts != []
    ensures Weight(ts[1..]) < Weight(ts)
  {}

  class Parser {
    var tokens: seq<Token>
    var pos: nat

    ghost predicate Valid()
      reads this
    {
      pos <= |tokens| && tokens != [] && tokens[|tokens| - 1] == Eof
    }

    ghost function Rest(): seq<Token>
      requires pos <= |tokens|
      reads this
    {
      tokens[pos..]
    }

    constructor (ts: seq<Token>)
      requires ts != [] && ts[|ts| - 1] == Eof
      ensures Valid() && Rest() == ts
    {
      tokens, pos := ts, 0;
    }

    function Next(): (t: Token)
      requires Valid()
      reads this
      ensures t == Peek(Rest())
    {
      if pos < |tokens| then tokens[pos] else tokens[|tokens| - 1]
    }

    method Advance() returns (t: Token)
      requires Valid()
      modifies this`pos
      ensures Valid() && t == Peek(old(Rest())) && Rest() == Skip(old(Rest()))
    {
      t := Next();
      if pos < |tokens| {
        pos := pos + 1;
      }
    }

    method ExpectIdent() returns (r: ParseResult<string>)
      requires Valid()
      modifies this`pos
      ensures Valid() && Agrees(Identifier(old(Rest())), r, Rest())
    {
      var t := Advance();
      r := if t.Ident? then Ok(t.name) else Err(ExpectedToken(AnIdentifier, t));
    }

    method ExpectToken(expected: Token) returns (r: ParseResult<Token>)
      requires Valid() && expected != Eof
      modifies this`pos
      ensures Valid() && Agrees(Expect(expected, old(Rest())), r, Rest())
    {
      var t := Advance();
      r := if t == expected then Ok(t) else Err(ExpectedToken(Exactly(expected), t));
    }

    method ParseExpressionBp(min: U8) returns (r: ParseResult<seq<Token>>)
      requires Valid()
      modifies this`pos
      ensures Valid() && Spells(Expression(old(Rest()), min), r, Rest())
      decreases |tokens| - pos, 2
    {
      ghost var first := Primary(Rest());
      r := ParsePrimary();
      if r.Ok? {
        r := ParseOperators(r.value, first.value, min);
      }
    }

    /** The loop over binary operators, from what is read so far. */
    method ParseOperators(first: seq<Token>, ghost tree: Tree, min: U8) returns (r: ParseResult<seq<Token>>)
      requires Valid() && first == Text(tree)
      modifies this`pos
      ensures Valid() && Spells(More(tree, old(Rest()), min), r, Rest())
      decreases |tokens| - pos, 4
    {
      r := Ok(first);
      ghost var goal, whole := More(tree, Rest(), min), tree;
      while Precedence(Next()) > 0
        invariant Valid() && old(pos) <= pos && r == Ok(Text(whole))
        invariant goal == More(whole, Rest(), min)
        decreases |tokens| - pos
      {
        if Precedence(Next()) < min {
          break;
        }
        r, whole := ParseOperation(r.value, whole, min);
        if r.Err? {
          return;
        }
      }
    }

    /** An operator and its right operand. */
    method ParseOperation(left: seq<Token>, ghost tree: Tree, min: U8)
      returns (r: ParseResult<seq<Token>>, ghost whole: Tree)
      requires Valid() && left == Text(tree) && Precedence(Next()) >= min
      modifies this`pos
      ensures Valid() && (r.Ok? ==> old(pos) < pos) && GoesOn(tree, old(Rest()), min, r, whole, Rest())
      decreases |tokens| - pos, 3
    {
      ghost var ts := Rest();
      assert ts != [];
      hide Precedence, Expression, Spells, GoesOn, Text;
      var op := Advance();
      assert op == ts[0] && Rest() == ts[1..];
      hide Peek, Skip;
      var right := ParseExpressionBp(Precedence(op) + 1);
      r := if right.Ok? then Ok([LParen] + left + [op] + right.value + [RParen]) else right;
      whole := OperationRead(tree, ts, min, right, Rest());
      Shorter(ts, Precedence(op) + 1, right, Rest());
    }

    /** The operand, prefix operation or parenthesised expression at the front. */
    method ParsePrimary() returns (r: ParseResult<seq<Token>>)
      requires Valid()
      modifies this`pos
      ensures Valid() && Spells(Primary(old(Rest())), r, Rest())
      decreases |tokens| - pos, 1
    {
      PrimaryPrinted(Rest());
      var t := Advance();
      if Operand(t) {
        r := Ok([t]);
      } else if PrefixOperator(t) {
        r := ParseExpressionBp(PREFIX);
        if r.Ok? {
          r := Ok([t] + r.value);
        }
      } else if t == LParen {
        r := ParseParenthesised();
      } else {
        r := Err(ExpectedToken(AnOperand, t));
      }
    }

    method ParseParenthesised() returns (r: ParseResult<seq<Token>>)
      requires Valid()
      modifies this`pos
      ensures Valid() && Agrees(Parenthesised(old(Rest())), r, Rest())
      decreases |tokens| - pos, 3
    {
      hide Expression, Text, Precedence, Parenthesised, Spells, Expect, Peek, Skip;
      ghost var ts := Rest();
      r := ParseExpressionBp(0);
      ghost var mid := Rest();
      if r.Err? {
        ParenthesisedRead(ts, r, mid, Err(r.error), mid);
        return;
      }
      var value := r.value;
      var close := ExpectToken(RParen);
      ParenthesisedRead(ts, r, mid, close, Rest());
      if close.Err? {
        return Err(close.error);
      }
      r := Ok(if value[0] == LParen && value[|value| - 1] == RParen then value else [LParen] + value + [RParen]);
    }

    method ParseQualifiedIdent() returns (r: ParseResult<string>)
      requires Valid()
      modifies this`pos
      ensures Valid() && Agrees(QualifiedIdent(old(Rest())), r, Rest())
    {
      ghost var goal := QualifiedIdent(Rest());
      r := ExpectIdent();
      if r.Err? {
        return;
      }
      var name := r.value;
      while Next() == Dot
        invariant Valid() && goal == MoreParts(name, Rest())
        decreases |tokens| - pos
      {
        var _ := Advance();
        var part := ExpectIdent();
        if part.Err? {
          return Err(part.error);
        }
        name := name + "." + part.value;
      }
      r := Ok(name);
    }

    /** One argument of an annotation: a key, if there is one, and a value. */
    method ParseArgument() returns (r: ParseResult<(Option<string>, seq<Token>)>)
      requires Valid()
      modifies this`pos
      ensures Valid() && Agrees(Argument(old(Rest())), r, Rest())
    {
      var key := None;
      if Next().Ident? && pos + 1 < |tokens| && tokens[pos + 1] == Equals {
        key := Some(Next().name);
        var _ := Advance();
        var _ := Advance();
      }
      var value := ParseExpressionBp(0);
      r := if value.Err? then Err(value.error) else Ok((key, value.value));
    }

    method ParseArguments() returns (r: ParseResult<seq<(Option<string>, seq<Token>)>>)
      requires Valid()
      modifies this`pos
      ensures Valid() && Agrees(Arguments(old(Rest())), r, Rest())
    {
      hide Argument, Weight;
      var args := [];
      ghost var goal := Arguments(Rest());
      PrependedNothing(goal);
      while Next() != RParen
        invariant Valid() && goal == Prepended(args, Arguments(Rest()))
        decreases Weight(Rest())
      {
        ArgumentsStep(args, Rest());
        var arg := ParseArgument();
        if arg.Err? {
          return Err(arg.error);
        }
        args := args + [arg.value];
        if Next() != Comma {
          return Ok(args);
        }
        var _ := Advance();
      }
      assert args + [] == args;
      r := Ok(args);
    }

    method ParseAnnotationArguments() returns (r: ParseResult<seq<(Option<string>, seq<Token>)>>)
      requires Valid()
      modifies this`pos
      ensures Valid() && Agrees(AnnotationArguments(old(Rest())), r, Rest())
    {
      hide Weight, Arguments;
      if Next() != LParen {
        return Ok([]);
      }
      var _ := Advance();
      r := ParseArguments();
      if r.Ok? {
        var close := ExpectToken(RParen);
        if close.Err? {
          r := Err(close.error);
        }
      }
    }

    method ParseAnnotation() returns (r: ParseResult<Annotation>)
      requires Valid()
      modifies this`pos
      ensures Valid() && Agrees(NamedAnnotation(old(Rest())), r, Rest())
    {
      hide Weight, AnnotationArguments;
      var name := ExpectIdent();
      if name.Err? {
        return Err(name.error);
      }
      var args := ParseAnnotationArguments();
      r := if args.Err? then Err(args.error) else Ok(Annotation(name.value, args.value));
    }

    method ParseAnnotations() returns (r: ParseResult<seq<Annotation>>)
      requires Valid()
      modifies this`pos
      ensures Valid() && Agrees(Annotations(old(Rest())), r, Rest())
    {
      hide NamedAnnotation, Weight;
      var annos := [];
      ghost var goal := Annotations(Rest());
      PrependedNothing(goal);
      while Next() == At
        invariant Valid() && goal == Prepended(annos, Annotations(Rest()))
        decreases Weight(Rest())
      {
        WeightSkip(Rest());
        var _ := Advance();
        var a := ParseAnnotation();
        if a.Err? {
          return Err(a.error);
        }
        PrependedOne(annos, a.value, Annotations(Rest()));
        annos := annos + [a.value];
      }
      assert annos + [] == annos;
      r := Ok(annos);
    }

    method ExpectGenericClose() returns (r: ParseResult<Token>)
      requires Valid()
      modifies this
      ensures Valid() && Agrees(GenericClose(old(Rest())), r, Rest())
    {
      if Next() == RAngleAngle {
        var _ := Advance();
        tokens := tokens[..pos] + [RAngle] + tokens[pos..];
        r := Ok(RAngle);
      } else {
        r := ExpectToken(RAngle);
      }
    }

    method ParseNamed() returns (r: ParseResult<(bool, string)>)
      requires Valid()
      modifies this`pos
      ensures Valid() && Agrees(Named(old(Rest())), r, Rest())
    {
      var annos := ParseAnnotations();
      if annos.Err? {
        return Err(annos.error);
      }
      var name := ParseQualifiedIdent();
      r := if name.Err? then Err(name.error) else Ok((Nullable(annos.value), name.value));
    }

    method ParseType() returns (r: ParseResult<AidlType>)
      requires Valid()
      modifies this
      ensures Valid() && Agrees(Type(old(Rest())), r, Rest())
      decreases Weight(Rest()), 0
    {
      hide Weight, TypeArguments, Named, Dimensions, ShapeFault, TypeList;
      var named := ParseNamed();
      if named.Err? {
        return Err(named.error);
      }
      var args := ParseTypeArguments();
      if args.Err? {
        return Err(args.error);
      }
      var dimensions := ParseDimensions();
      if dimensions.Err? {
        return Err(dimensions.error);
      }
      var ty := AidlType(named.value.1, args.value, dimensions.value, named.value.0);
      var fault := ValidateTypeShape(ty);
      r := if fault.Some? then Err(Custom(fault.value)) else Ok(ty);
    }

    method ParseTypeArguments() returns (r: ParseResult<seq<AidlType>>)
      requires Valid()
      modifies this
      ensures Valid() && Agrees(TypeArguments(old(Rest())), r, Rest())
      decreases Weight(Rest()), 2
    {
      if Next() != LAngle {
        return Ok([]);
      }
      var _ := Advance();
      r := ParseTypeList();
      if r.Ok? {
        var close := ExpectGenericClose();
        if close.Err? {
          r := Err(close.error);
        }
      }
    }

    method ParseTypeList() returns (r: ParseResult<seq<AidlType>>)
      requires Valid()
      modifies this
      ensures Valid() && Agrees(TypeList(old(Rest())), r, Rest())
      decreases Weight(Rest()), 1
    {
      hide Type, Weight;
      var types := [];
      ghost var goal, start := TypeList(Rest()), Weight(Rest());
      PrependedNothing(goal);
      while Next() != RAngle
        invariant Valid() && Weight(Rest()) <= start && goal == Prepended(types, TypeList(Rest()))
        decreases Weight(Rest())
      {
        TypeListStep(types, Rest());
        var ty := ParseType();
        if ty.Err? {
          return Err(ty.error);
        }
        types := types + [ty.value];
        if Next() != Comma {
          return Ok(types);
        }
        var _ := Advance();
      }
      assert types + [] == types;
      r := Ok(types);
    }

    method ParseDimensions() returns (r: ParseResult<nat>)
      requires Valid()
      modifies this`pos
      ensures Valid() && Agrees(Dimensions(old(Rest())), r, Rest())
    {
      hide Dimensions, Weight;
      var n: nat := 0;
      ghost var goal := Dimensions(Rest());
      DimensionsStep(0, Rest());
      while Next() == LBracket
        invariant Valid() && goal == Raised(n, Dimensions(Rest()))
        decreases |tokens| - pos
      {
        DimensionsStep(n, Rest());
        var _ := Advance();
        var close := ExpectToken(RBracket);
        if close.Err? {
          return Err(close.error);
        }
        n := n + 1;
      }
      DimensionsStep(n, Rest());
      r := Ok(n);
    }

    /** Only reads: the complaint about a type, if there is one. */
    static method ValidateTypeShape(ty: AidlType) returns (r: Option<string>)
      ensures r == ShapeFault(ty)
      decreases ty
    {
      if ty.name == "void" && (ty.dimensions != 0 || ty.args != []) {
        return Some("void cannot be an array or generic type");
      }
      if BuiltIn(ty.name) && ty.args != [] {
        return Some(ty.name + " cannot have type arguments");
      }
      var validArity := if ty.name == "List" then |ty.args| == 1
                        else if ty.name == "Map" then |ty.args| == 0 || |ty.args| == 2
                        else true;
      if ty.name == "List" || ty.name == "Map" {
        if !validArity {
          return Some(ArityMessage(ty.name));
        }
      } else if ty.args != [] {
        return Some(ty.name + " is not a generic AIDL type");
      }
      for i := 0 to |ty.args|
        invariant ShapeFaultIn(ty.args) == ShapeFaultIn(ty.args[i..])
      {
        r := ValidateTypeShape(ty.args[i]);
        if r.Some? {
          return;
        }
        assert ty.args[i..][1..] == ty.args[i + 1..];
      }
      r := None;
    }
  }
}
