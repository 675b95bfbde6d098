/** Types of AIDL (crates/aidl-rs/src/parser.rs:438-499, 528-566, 893-986; crates/aidl-rs/src/ast.rs:104-109):
    annotations, qualified names, type arguments with `>>` split in two, and array brackets. */
module AidlTypes {
  import opened Wrappers
  import opened AidlExpression

  datatype AidlType = AidlType(name: string, args: seq<AidlType>, dimensions: nat, nullable: bool)

  datatype Annotation = Annotation(name: string, args: seq<(Option<string>, seq<Token>)>)

  /** Tokens with `>>` counted as two: what splitting one leaves unchanged. */
  function Weight(ts: seq<Token>): (w: nat)
    ensures w >= |ts|
  {
    if ts == [] then 0 else (if ts[0] == RAngleAngle then 2 else 1) + Weight(ts[1..])
  }

  lemma {:induction false} WeightDrop(ts: seq<Token>, n: nat)
    requires n <= |ts|
    ensures Weight(ts[n..]) + n <= Weight(ts)
  {
    if n > 0 {
      WeightDrop(ts[1..], n - 1);
      assert ts[1..][n - 1..] == ts[n..];
    } else {
      assert ts[0..] == ts;
    }
  }

  // ---------- the parser ----------

  function Identifier(ts: seq<Token>): (r: Outcome<string>)
    ensures r.Parsed? ==> ts != [] && r.rest == ts[1..]
  {
    if Peek(ts).Ident? then Parsed(Peek(ts).name, ts[1..]) else Failed(ExpectedToken(AnIdentifier, Peek(ts)))
  }

  function Expect(t: Token, ts: seq<Token>): (r: Outcome<Token>)
    requires t != Eof
    ensures r.Parsed? ==> ts != [] && r.rest == ts[1..]
  {
    if Peek(ts) == t then Parsed(t, ts[1..]) else Failed(ExpectedToken(Exactly(t), Peek(ts)))
  }

  /** `parse_qualified_ident`. */
  function QualifiedIdent(ts: seq<Token>): (r: Outcome<string>)
    ensures r.Parsed? ==> Weight(r.rest) < Weight(ts)
  {
    match Identifier(ts)
    case Failed(e) => Failed(e)
    case Parsed(name, rest) => MoreParts(name, rest)
  }

  function MoreParts(name: string, ts: seq<Token>): (r: Outcome<string>)
    ensures r.Parsed? ==> Weight(r.rest) <= Weight(ts)
    decreases |ts|
  {
    if Peek(ts) != Dot then Parsed(name, ts)
    else
      match Identifier(ts[1..])
      case Failed(e) => Failed(e)
      case Parsed(part, rest) => MoreParts(name + "." + part, rest)
  }

  /** An argument's key, when an identifier with `=` after it comes next. */
  function ArgumentKey(ts: seq<Token>): (r: (Option<string>, seq<Token>))
    ensures |r.1| <= |ts|
  {
    if Peek(ts).Ident? && 1 < |ts| && ts[1] == Equals then (Some(ts[0].name), ts[2..]) else (None, ts)
  }

  /** An expression is read off the front. */
  lemma ExpressionShrinks(ts: seq<Token>)
    requires Expression(ts, 0).Parsed?
    ensures Weight(Expression(ts, 0).rest) < Weight(ts)
  {
    ExpressionSound(ts, 0);
    var e := Expression(ts, 0);
    assert ts[|Yield(e.value)|..] == e.rest;
    WeightDrop(ts, |Yield(e.value)|);
  }

  /** One argument of an annotation. */
  function Argument(ts: seq<Token>): (r: Outcome<(Option<string>, seq<Token>)>)
    ensures r.Parsed? ==> Weight(r.rest) < Weight(ts)
  {
    var (key, ts1) := ArgumentKey(ts);
    match Expression(ts1, 0)
    case Failed(e) => Failed(e)
    case Parsed(t, ts2) =>
      ExpressionShrinks(ts1);
      Parsed((key, Text(t)), ts2)
  }

  /** The arguments of an annotation up to its `)`. */
  function Arguments(ts: seq<Token>): (r: Outcome<seq<(Option<string>, seq<Token>)>>)
    ensures r.Parsed? ==> Weight(r.rest) <= Weight(ts)
    decreases Weight(ts)
  {
    if Peek(ts) == RParen then Parsed([], ts)
    else
      match Argument(ts)
      case Failed(e) => Failed(e)
      case Parsed(arg, ts1) =>
        if Peek(ts1) != Comma then Parsed([arg], ts1)
        else
          match Arguments(ts1[1..])
          case Failed(e) => Failed(e)
          case Parsed(more, ts2) => Parsed([arg] + more, ts2)
  }

  function AnnotationArguments(ts: seq<Token>): (r: Outcome<seq<(Option<string>, seq<Token>)>>)
    ensures r.Parsed? ==> Weight(r.rest) <= Weight(ts)
  {
    if Peek(ts) != LParen then Parsed([], ts)
    else
      match Arguments(ts[1..])
      case Failed(e) => Failed(e)
      case Parsed(args, ts1) =>
        match Expect(RParen, ts1)
        case Failed(e) => Failed(e)
        case Parsed(_, ts2) => Parsed(args, ts2)
  }

  /** One annotation, after its `@`. */
  function NamedAnnotation(ts: seq<Token>): (r: Outcome<Annotation>)
    ensures r.Parsed? ==> Weight(r.rest) <= Weight(ts)
  {
    match Identifier(ts)
    case Failed(e) => Failed(e)
    case Parsed(name, ts1) =>
      match AnnotationArguments(ts1)
      case Failed(e) => Failed(e)
      case Parsed(args, ts2) => Parsed(Annotation(name, args), ts2)
  }

  /** `parse_annotations`. */
  function Annotations(ts: seq<Token>): (r: Outcome<seq<Annotation>>)
    ensures r.Parsed? ==> Weight(r.rest) <= Weight(ts)
    decreases Weight(ts)
  {
    if Peek(ts) != At then Parsed([], ts)
    else
      match NamedAnnotation(ts[1..])
      case Failed(e) => Failed(e)
      case Parsed(a, ts1) =>
        match Annotations(ts1)
        case Failed(e) => Failed(e)
        case Parsed(more, ts2) => Parsed([a] + more, ts2)
  }

  /** `expect_generic_close`: a `>>` closes one list and leaves a `>` for the list around it. */
  function GenericClose(ts: seq<Token>): (r: Outcome<Token>)
    ensures r.Parsed? ==> Weight(r.rest) < Weight(ts)
  {
    if Peek(ts) == RAngleAngle then Parsed(RAngle, [RAngle] + ts[1..])
    else Expect(RAngle, ts)
  }

  /** `[]` pairs. */
  function Dimensions(ts: seq<Token>): (r: Outcome<nat>)
    ensures r.Parsed? ==> Weight(r.rest) <= Weight(ts)
    decreases |ts|
  {
    if Peek(ts) != LBracket then Parsed(0, ts)
    else
      match Expect(RBracket, ts[1..])
      case Failed(e) => Failed(e)
      case Parsed(_, ts1) =>
        match Dimensions(ts1)
        case Failed(e) => Failed(e)
        case Parsed(n, ts2) => Parsed(1 + n, ts2)
  }

  const NULLABLE := "nullable"

  predicate Nullable(annos: seq<Annotation>) {
    exists i :: 0 <= i < |annos| && annos[i].name == NULLABLE
  }

  /** The annotations of a type, of which only `@nullable` is kept, and its name. */
  function Named(ts: seq<Token>): (r: Outcome<(bool, string)>)
    ensures r.Parsed? ==> Weight(r.rest) < Weight(ts)
  {
    match Annotations(ts)
    case Failed(e) => Failed(e)
    case Parsed(annos, ts1) =>
      match QualifiedIdent(ts1)
      case Failed(e) => Failed(e)
      case Parsed(name, ts2) => Parsed((Nullable(annos), name), ts2)
  }

  function Checked(ty: AidlType, ts: seq<Token>): Outcome<AidlType> {
    match ShapeFault(ty)
    case Some(m) => Failed(Custom(m))
    case None => Parsed(ty, ts)
  }

  /** `parse_type`. */
  function Type(ts: seq<Token>): (r: Outcome<AidlType>)
    ensures r.Parsed? ==> Weight(r.rest) < Weight(ts)
    decreases Weight(ts), 0
  {
    match Named(ts)
    case Failed(e) => Failed(e)
    case Parsed((nullable, name), ts1) =>
      match TypeArguments(ts1)
      case Failed(e) => Failed(e)
      case Parsed(args, ts2) =>
        match Dimensions(ts2)
        case Failed(e) => Failed(e)
        case Parsed(n, ts3) => Checked(AidlType(name, args, n, nullable), ts3)
  }

  function TypeArguments(ts: seq<Token>): (r: Outcome<seq<AidlType>>)
    ensures r.Parsed? ==> Weight(r.rest) <= Weight(ts)
    decreases Weight(ts), 2
  {
    if Peek(ts) != LAngle then Parsed([], ts)
    else
      match TypeList(ts[1..])
      case Failed(e) => Failed(e)
      case Parsed(args, ts1) =>
        match GenericClose(ts1)
        case Failed(e) => Failed(e)
        case Parsed(_, ts2) => Parsed(args, ts2)
  }

  /** The loop over type arguments: to a `>`, or to a type with no comma after it. */
  function TypeList(ts: seq<Token>): (r: Outcome<seq<AidlType>>)
    ensures r.Parsed? ==> Weight(r.rest) <= Weight(ts)
    decreases Weight(ts), 1
  {
    if Peek(ts) == RAngle then Parsed([], ts)
    else
      match Type(ts)
      case Failed(e) => Failed(e)
      case Parsed(t, ts1) =>
        if Peek(ts1) != Comma then Parsed([t], ts1)
        else
          match TypeList(ts1[1..])
          case Failed(e) => Failed(e)
          case Parsed(more, ts2) => Parsed([t] + more, ts2)
  }

  /** A comma after the last type argument changes nothing. */
  lemma TrailingComma(ts: seq<Token>, t: AidlType, rest: seq<Token>)
    requires Type(ts) == Parsed(t, [Comma, RAngle] + rest) && Peek(ts) != RAngle
    ensures TypeList(ts) == Parsed([t], [RAngle] + rest)
  {
    hide Type, Weight;
    var after := [Comma, RAngle] + rest;
    assert after[1..] == [RAngle] + rest && [t] + [] == [t];
    NoMoreTypes([RAngle] + rest);
  }

  lemma NoMoreTypes(ts: seq<Token>)
    requires Peek(ts) == RAngle
    ensures TypeList(ts) == Parsed([], ts)
  {}

  // ---------- shapes ----------

  predicate BuiltIn(name: string) {
    name in ["void", "boolean", "byte", "char", "int", "long", "float", "double", "String", "IBinder"]
  }

  function ArityMessage(name: string): string {
    name + " requires " + (if name == "List" then "exactly 1" else "0 or 2") + " type arguments"
  }

  /** `validate_type_shape`: the first complaint, outermost type first. */
  function ShapeFault(ty: AidlType): Option<string> {
    if ty.name == "void" && (ty.dimensions != 0 || ty.args != []) then Some("void cannot be an array or generic type")
    else if BuiltIn(ty.name) && ty.args != [] then Some(ty.name + " cannot have type arguments")
    else if ty.name == "List" && |ty.args| != 1 then Some(ArityMessage(ty.name))
    else if ty.name == "Map" && |ty.args| != 0 && |ty.args| != 2 then Some(ArityMessage(ty.name))
    else if ty.name != "List" && ty.name != "Map" && ty.args != [] then Some(ty.name + " is not a generic AIDL type")
    else ShapeFaultIn(ty.args)
  }

  function ShapeFaultIn(args: seq<AidlType>): Option<string> {
    if args == [] then None
    else if ShapeFault(args[0]).Some? then ShapeFault(args[0])
    else ShapeFaultIn(args[1..])
  }

  /** Only `List` and `Map` take arguments, one and two of them; a bare `Map` may stand; `void` is no array. */
  predicate WellShaped(ty: AidlType) {
    && |ty.args| == (if ty.name == "List" then 1 else if ty.name == "Map" && ty.args != [] then 2 else 0)
    && (ty.name == "void" ==> ty.dimensions == 0)
    && forall i :: 0 <= i < |ty.args| ==> WellShaped(ty.args[i])
  }

  lemma {:induction false} FaultlessIsWellShaped(ty: AidlType)
    ensures ShapeFault(ty) == None <==> WellShaped(ty)
    decreases ty
  {
    forall i | 0 <= i < |ty.args|
      ensures ShapeFault(ty.args[i]) == None <==> WellShaped(ty.args[i])
    {
      FaultlessIsWellShaped(ty.args[i]);
    }
    FaultlessArguments(ty.args);
  }

  /** The types without arguments that the parser knows. */
  lemma BuiltInNames(name: string)
    ensures BuiltIn(name) <==>
            || name in {"void", "boolean", "byte", "char", "int"}
            || name in {"long", "float", "double", "String", "IBinder"}
  {}

  lemma OtherNames(name: string)
    requires name in {"List", "Map"}
    ensures !BuiltIn(name) && name != "void"
  {
    BuiltInNames(name);
  }

  lemma ArityMessages()
    ensures ArityMessage("List") == "List requires exactly 1 type arguments"
    ensures ArityMessage("Map") == "Map requires 0 or 2 type arguments"
  {
    hide ArityMessage;
    ListMessage();
    MapMessage();
  }

  lemma ListMessage()
    ensures ArityMessage("List") == "List requires exactly 1 type arguments"
  {}

  lemma MapMessage()
    ensures ArityMessage("Map") == "Map requires 0 or 2 type arguments"
  {
    assert "Map" != "List";
  }

  /** The complaints, and the types they are about. */
  lemma Complaints(ty: AidlType)
    ensures ty.name == "void" && (ty.dimensions > 0 || ty.args != []) ==>
              ShapeFault(ty) == Some("void cannot be an array or generic type")
    ensures ty.name != "void" && BuiltIn(ty.name) && ty.args != [] ==>
              ShapeFault(ty) == Some(ty.name + " cannot have type arguments")
    ensures ty.name == "List" && |ty.args| != 1 ==> ShapeFault(ty) == Some("List requires exactly 1 type arguments")
    ensures ty.name == "Map" && |ty.args| !in {0, 2} ==> ShapeFault(ty) == Some("Map requires 0 or 2 type arguments")
    ensures ty.name !in {"List", "Map"} && !BuiltIn(ty.name) && ty.name != "void" && ty.args != [] ==>
              ShapeFault(ty) == Some(ty.name + " is not a generic AIDL type")
  {
    hide ShapeFaultIn, BuiltIn, ArityMessage;
    ArityMessages();
    if ty.name in {"List", "Map"} {
      OtherNames(ty.name);
    }
  }

  /** An argument's complaint is passed on if the type around it has none, the first argument's first. */
  lemma {:induction false} ComplaintsWithin(args: seq<AidlType>, i: nat)
    requires i < |args| && (forall j :: 0 <= j < i ==> ShapeFault(args[j]) == None) && ShapeFault(args[i]).Some?
    ensures ShapeFaultIn(args) == ShapeFault(args[i])
    decreases i
  {
    if i > 0 {
      ComplaintsWithin(args[1..], i - 1);
    }
  }

  lemma {:induction false} FaultlessArguments(args: seq<AidlType>)
    ensures ShapeFaultIn(args) == None <==> forall i :: 0 <= i < |args| ==> ShapeFault(args[i]) == None
    decreases |args|
  {
    if args != [] {
      FaultlessArguments(args[1..]);
      assert forall i :: 1 <= i < |args| ==> args[i] == args[1..][i - 1];
    }
  }

  // ---------- a type and its spelling ----------

  /** The tokens with every `>>` taken apart. */
  function Flat(ts: seq<Token>): seq<Token> {
    if ts == [] then [] else (if ts[0] == RAngleAngle then [RAngle, RAngle] else [ts[0]]) + Flat(ts[1..])
  }

  /** The tokens as a lexer gives them: two `>` side by side become `>>`. */
  function Paired(ts: seq<Token>): seq<Token>
    decreases |ts|
  {
    if ts == [] then []
    else if |ts| > 1 && ts[0] == RAngle && ts[1] == RAngle then [RAngleAngle] + Paired(ts[2..])
    else [ts[0]] + Paired(ts[1..])
  }

  lemma {:induction false} FlatPaired(ts: seq<Token>)
    requires RAngleAngle !in ts
    ensures Flat(Paired(ts)) == ts
    decreases |ts|
  {
    if ts != [] {
      if |ts| > 1 && ts[0] == RAngle && ts[1] == RAngle {
        FlatPaired(ts[2..]);
        assert Paired(ts)[1..] == Paired(ts[2..]);
        assert ts == [RAngle, RAngle] + ts[2..];
      } else {
        FlatPaired(ts[1..]);
        assert Paired(ts)[1..] == Paired(ts[1..]);
      }
    }
  }

  /** A first token other than `>`: it is the parser's next one too. */
  lemma FlatFront(ts: seq<Token>)
    ensures Peek(Flat(ts)) == if Peek(ts) == RAngleAngle then RAngle else Peek(ts)
    ensures ts != [] && ts[0] != RAngleAngle ==> Flat(ts)[1..] == Flat(ts[1..])
    ensures Flat(ts) == [] <==> ts == []
  {
    if ts != [] && ts[0] != RAngleAngle {
      assert Flat(ts) == [ts[0]] + Flat(ts[1..]);
    }
  }

  /** A `>`, alone or the first half of a `>>`, closes a list. */
  lemma FlatClose(ts: seq<Token>)
    requires Peek(Flat(ts)) == RAngle
    ensures GenericClose(ts).Parsed? && Flat(GenericClose(ts).rest) == Flat(ts)[1..]
  {
    FlatFront(ts);
    if ts[0] == RAngleAngle {
      var left := [RAngle] + ts[1..];
      assert left[1..] == ts[1..];
      assert Flat(left) == [RAngle] + Flat(ts[1..]);
      assert Flat(ts) == [RAngle, RAngle] + Flat(ts[1..]);
    }
  }

  /** The identifiers of a dotted name: the first, and those after a dot. */
  function Split(name: string): (string, seq<string>) {
    if name == "" then ("", [])
    else
      var (f, m) := Split(name[1..]);
      if name[0] == '.' then ("", [f] + m) else ([name[0]] + f, m)
  }

  function Join(name: string, more: seq<string>): string
    decreases |more|
  {
    if more == [] then name else Join(name + "." + more[0], more[1..])
  }

  lemma {:induction false} JoinPrefix(a: string, b: string, more: seq<string>)
    ensures Join(a + b, more) == a + Join(b, more)
    decreases |more|
  {
    if more != [] {
      assert a + b + "." + more[0] == a + (b + "." + more[0]);
      JoinPrefix(a, b + "." + more[0], more[1..]);
    }
  }

  lemma {:induction false} JoinSplit(name: string)
    ensures Join(Split(name).0, Split(name).1) == name
  {
    if name != "" {
      JoinSplit(name[1..]);
      var (f, m) := Split(name[1..]);
      assert name == [name[0]] + name[1..];
      if name[0] == '.' {
        assert ([f] + m)[0] == f && ([f] + m)[1..] == m && "" + "." + f == "." + f;
        JoinPrefix(".", f, m);
      } else {
        JoinPrefix([name[0]], f, m);
      }
    }
  }

  function DottedParts(more: seq<string>): seq<Token> {
    if more == [] then [] else [Dot, Ident(more[0])] + DottedParts(more[1..])
  }

  function Brackets(n: nat): seq<Token> {
    if n == 0 then [] else [LBracket, RBracket] + Brackets(n - 1)
  }

  /** A type in tokens, with a single `>` for each closed list. */
  function Spelling(ty: AidlType): (ts: seq<Token>)
    ensures ts != [] && (ts[0] == At || ts[0].Ident?)
    decreases ty, 1
  {
    var (f, m) := Split(ty.name);
    (if ty.nullable then [At, Ident(NULLABLE)] else []) +
    ([Ident(f)] + (DottedParts(m) + (SpellArguments(ty) + Brackets(ty.dimensions))))
  }

  function SpellArguments(ty: AidlType): seq<Token>
    decreases ty, 0
  {
    if ty.args == [] then [] else [LAngle] + (SpellList(ty.args) + [RAngle])
  }

  function SpellList(args: seq<AidlType>): (ts: seq<Token>)
    requires args != []
    ensures ts != [] && (ts[0] == At || ts[0].Ident?)
  {
    Spelling(args[0]) + (if |args| == 1 then [] else [Comma] + SpellList(args[1..]))
  }

  ghost predicate Gives<T(!new)>(o: Outcome<T>, value: T, rest: seq<Token>) {
    o.Parsed? && o.value == value && Flat(o.rest) == rest
  }

  /** What may follow a type. */
  predicate Ends(rest: seq<Token>) {
    Peek(rest) != Dot && Peek(rest) != LAngle && Peek(rest) != LBracket
  }

  /** Taking a first token other than `>` off. */
  lemma FlatStep(ts: seq<Token>, t: Token, rest: seq<Token>)
    requires Flat(ts) == [t] + rest && t != RAngle
    ensures Peek(ts) == t && ts != [] && Flat(ts[1..]) == rest
  {
    FlatFront(ts);
    assert ([t] + rest)[1..] == rest;
  }

  lemma {:induction false} PartsRead(name: string, more: seq<string>, ts: seq<Token>, rest: seq<Token>)
    requires Flat(ts) == DottedParts(more) + rest && Peek(rest) != Dot
    ensures Gives(MoreParts(name, ts), Join(name, more), rest)
    decreases |more|
  {
    hide Weight, Flat;
    if more == [] {
      assert [] + rest == rest;
      FlatFront(ts);
    } else {
      var tail := DottedParts(more[1..]) + rest;
      assert Flat(ts) == [Dot] + ([Ident(more[0])] + tail);
      FlatStep(ts, Dot, [Ident(more[0])] + tail);
      FlatStep(ts[1..], Ident(more[0]), tail);
      PartsRead(name + "." + more[0], more[1..], ts[1..][1..], rest);
    }
  }

  lemma NameReads(name: string, ts: seq<Token>, rest: seq<Token>)
    requires Flat(ts) == [Ident(Split(name).0)] + (DottedParts(Split(name).1) + rest) && Peek(rest) != Dot
    ensures Gives(QualifiedIdent(ts), name, rest)
  {
    FlatFront(ts);
    PartsRead(Split(name).0, Split(name).1, ts[1..], rest);
    JoinSplit(name);
  }

  lemma {:induction false} BracketsRead(n: nat, ts: seq<Token>, rest: seq<Token>)
    requires Flat(ts) == Brackets(n) + rest && Peek(rest) != LBracket
    ensures Gives(Dimensions(ts), n, rest)
  {
    hide Weight, Flat;
    if n == 0 {
      assert [] + rest == rest;
      FlatFront(ts);
    } else {
      var tail := Brackets(n - 1) + rest;
      assert Flat(ts) == [LBracket] + ([RBracket] + tail);
      FlatStep(ts, LBracket, [RBracket] + tail);
      FlatStep(ts[1..], RBracket, tail);
      BracketsRead(n - 1, ts[1..][1..], rest);
    }
  }

  /** `@nullable`, or nothing. */
  lemma NullableReads(nullable: bool, ts: seq<Token>, rest: seq<Token>)
    requires Flat(ts) == (if nullable then [At, Ident(NULLABLE)] else []) + rest && Peek(rest).Ident?
    ensures Annotations(ts).Parsed? && Nullable(Annotations(ts).value) == nullable && Flat(Annotations(ts).rest) == rest
  {
    FlatFront(ts);
    if nullable {
      assert Flat(ts) == [At] + ([Ident(NULLABLE)] + rest);
      FlatFront(ts[1..]);
      FlatFront(ts[1..][1..]);
      var a := Annotation(NULLABLE, []);
      assert NamedAnnotation(ts[1..]) == Parsed(a, ts[1..][1..]);
      assert Annotations(ts) == Parsed([a] + [], ts[1..][1..]);
      assert ([a] + [])[0] == a;
    } else {
      assert Flat(ts) == rest;
    }
  }

  /** However the `>` that close it are paired with each other, or with one that follows, the
      spelling of a well-shaped type parses to that type. */
  lemma {:induction false} TypeReads(ty: AidlType, ts: seq<Token>, rest: seq<Token>)
    requires WellShaped(ty) && Flat(ts) == Spelling(ty) + rest && Ends(rest)
    ensures Gives(Type(ts), ty, rest)
    decreases ty, 1
  {
    var dims := Brackets(ty.dimensions) + rest;
    var args := SpellArguments(ty) + dims;
    var name := [Ident(Split(ty.name).0)] + (DottedParts(Split(ty.name).1) + args);
    SpellingParts(ty, rest);
    NullableReads(ty.nullable, ts, name);
    var ts1 := Annotations(ts).rest;
    NameReads(ty.name, ts1, args);
    var ts2 := QualifiedIdent(ts1).rest;
    ArgumentsRead(ty, ts2, dims);
    var ts3 := TypeArguments(ts2).rest;
    BracketsRead(ty.dimensions, ts3, rest);
    FaultlessIsWellShaped(ty);
  }

  lemma SpellingParts(ty: AidlType, rest: seq<Token>)
    requires Ends(rest)
    ensures var dims := Brackets(ty.dimensions) + rest;
            var args := SpellArguments(ty) + dims;
            && Spelling(ty) + rest == (if ty.nullable then [At, Ident(NULLABLE)] else []) +
                                      ([Ident(Split(ty.name).0)] + (DottedParts(Split(ty.name).1) + args))
            && Peek(dims) != Dot && Peek(dims) != LAngle && Peek(args) != Dot
  {
    hide Split, DottedParts;
    var parts := DottedParts(Split(ty.name).1);
    var b := Brackets(ty.dimensions);
    var args := SpellArguments(ty);
    var front := if ty.nullable then [At, Ident(NULLABLE)] else [];
    Regroup5(front, [Ident(Split(ty.name).0)], parts, args, b, rest);
  }

  lemma Regroup5<T>(a: seq<T>, b: seq<T>, c: seq<T>, d: seq<T>, e: seq<T>, f: seq<T>)
    ensures a + (b + (c + (d + e))) + f == a + (b + (c + (d + (e + f))))
  {
    assert c + (d + e) + f == c + (d + (e + f));
    assert b + (c + (d + e)) + f == b + (c + (d + (e + f)));
  }

  lemma CloseReads(args: seq<AidlType>, ts: seq<Token>, rest: seq<Token>)
    requires Peek(ts) == LAngle && Gives(TypeList(ts[1..]), args, [RAngle] + rest)
    ensures Gives(TypeArguments(ts), args, rest)
  {
    FlatClose(TypeList(ts[1..]).rest);
    assert ([RAngle] + rest)[1..] == rest;
  }

  lemma {:induction false} ArgumentsRead(ty: AidlType, ts: seq<Token>, rest: seq<Token>)
    requires WellShaped(ty) && Flat(ts) == SpellArguments(ty) + rest && Peek(rest) != LAngle
    ensures Gives(TypeArguments(ts), ty.args, rest)
    decreases ty, 0
  {
    hide TypeList, Flat, SpellList;
    if ty.args == [] {
      assert [] + rest == rest;
      FlatFront(ts);
    } else {
      var close := [RAngle] + rest;
      assert Flat(ts) == [LAngle] + (SpellList(ty.args) + close);
      FlatStep(ts, LAngle, SpellList(ty.args) + close);
      ListReads(ty.args, ts[1..], close);
      CloseReads(ty.args, ts, rest);
    }
  }

  lemma SpellListParts(args: seq<AidlType>, close: seq<Token>)
    requires |args| > 1
    ensures SpellList(args) + close == Spelling(args[0]) + ([Comma] + (SpellList(args[1..]) + close))
  {
    assert Spelling(args[0]) + ([Comma] + SpellList(args[1..])) + close ==
           Spelling(args[0]) + ([Comma] + (SpellList(args[1..]) + close));
  }

  lemma LastReads(t: AidlType, ts: seq<Token>, close: seq<Token>)
    requires Gives(Type(ts), t, close) && Peek(ts) != RAngle && Peek(close) == RAngle
    ensures Gives(TypeList(ts), [t], close)
  {
    FlatFront(Type(ts).rest);
  }

  lemma NextReads(t: AidlType, more: seq<AidlType>, ts: seq<Token>, close: seq<Token>)
    requires Type(ts).Parsed? && Type(ts).value == t && Peek(ts) != RAngle && Peek(Type(ts).rest) == Comma
    requires Gives(TypeList(Type(ts).rest[1..]), more, close)
    ensures Gives(TypeList(ts), [t] + more, close)
  {}

  lemma {:induction false} ListReads(args: seq<AidlType>, ts: seq<Token>, close: seq<Token>)
    requires args != [] && forall i :: 0 <= i < |args| ==> WellShaped(args[i])
    requires Flat(ts) == SpellList(args) + close && Peek(close) == RAngle
    ensures Gives(TypeList(ts), args, close)
    decreases args
  {
    hide Type, TypeList, Spelling, Flat, WellShaped;
    assert Peek(ts) != RAngle by { FlatFront(ts); }
    if |args| == 1 {
      var only := args[0];
      assert args == [only] && Spelling(only) + [] == Spelling(only);
      TypeReads(only, ts, close);
      LastReads(only, ts, close);
    } else {
      var first, more := args[0], args[1..];
      assert args == [first] + more;
      var tail := SpellList(more) + close;
      assert Flat(ts) == Spelling(first) + ([Comma] + tail) by { SpellListParts(args, close); }
      TypeReads(first, ts, [Comma] + tail);
      FlatStep(Type(ts).rest, Comma, tail);
      ListReads(more, Type(ts).rest[1..], close);
      NextReads(first, more, ts, close);
    }
  }

  /** A spelling has no `>>` of its own. */
  lemma {:induction false} SpellingIsFlat(ty: AidlType)
    ensures RAngleAngle !in Spelling(ty)
    decreases ty, 1
  {
    DottedIsFlat(Split(ty.name).1);
    BracketsAreFlat(ty.dimensions);
    if ty.args != [] {
      ListIsFlat(ty.args);
    }
  }

  lemma {:induction false} ListIsFlat(args: seq<AidlType>)
    requires args != []
    ensures RAngleAngle !in SpellList(args)
    decreases args
  {
    SpellingIsFlat(args[0]);
    if |args| > 1 {
      ListIsFlat(args[1..]);
    }
  }

  lemma {:induction false} DottedIsFlat(more: seq<string>)
    ensures RAngleAngle !in DottedParts(more)
  {
    if more != [] {
      DottedIsFlat(more[1..]);
    }
  }

  lemma {:induction false} BracketsAreFlat(n: nat)
    ensures RAngleAngle !in Brackets(n)
  {
    if n > 0 {
      BracketsAreFlat(n - 1);
    }
  }

  /** As a lexer gives it: a well-shaped type written out parses back to itself, and leaves
      the tokens after it. */
  lemma TypeRoundTrip(ty: AidlType, rest: seq<Token>)
    requires WellShaped(ty) && RAngleAngle !in rest && Ends(rest)
    ensures Gives(Type(Paired(Spelling(ty) + rest)), ty, rest)
  {
    SpellingIsFlat(ty);
    FlatPaired(Spelling(ty) + rest);
    TypeReads(ty, Paired(Spelling(ty) + rest), rest);
  }

  /** Every type the parser gives is well-shaped, so writing it out and parsing gives it again. */
  lemma ParsedTypes(ts: seq<Token>)
    requires Type(ts).Parsed?
    ensures var ty := Type(ts).value;
            WellShaped(ty) && Gives(Type(Paired(Spelling(ty) + [Eof])), ty, [Eof])
  {
    FaultlessIsWellShaped(Type(ts).value);
    TypeRoundTrip(Type(ts).value, [Eof]);
  }
}
