/** Annotations of AIDL types (crates/aidl-rs/src/parser.rs:528-566, 893-898): how they are spelled, what
    the parser keeps of them, and what they do to the type they stand before. */
module AidlAnnotations {
  import opened Wrappers
  import opened AidlExpression
  import opened AidlTypes

  datatype Written = Written(key: Option<string>, value: Tree)

  /** An annotation as written: without parentheses, or with the arguments in them. */
  datatype WrittenAnnotation = WrittenAnnotation(name: string, args: Option<seq<Written>>)

  function SpellArgument(a: Written): (ts: seq<Token>)
    ensures ts != []
  {
    (if a.key.Some? then [Ident(a.key.value), Equals] else []) + Yield(a.value)
  }

  function SpellArguments(args: seq<Written>): seq<Token> {
    if args == [] then []
    else SpellArgument(args[0]) + if |args| == 1 then [] else [Comma] + SpellArguments(args[1..])
  }

  function SpellAnnotation(a: WrittenAnnotation): seq<Token> {
    [At, Ident(a.name)] + if a.args.Some? then [LParen] + SpellArguments(a.args.value) + [RParen] else []
  }

  function SpellAnnotations(annos: seq<WrittenAnnotation>): seq<Token> {
    if annos == [] then [] else SpellAnnotation(annos[0]) + SpellAnnotations(annos[1..])
  }

  /** What is kept of an argument: its key, and the text of its value. */
  function KeptArguments(args: seq<Written>): seq<(Option<string>, seq<Token>)> {
    if args == [] then [] else [(args[0].key, Text(args[0].value))] + KeptArguments(args[1..])
  }

  function KeptAnnotation(a: WrittenAnnotation): Annotation {
    Annotation(a.name, if a.args.Some? then KeptArguments(a.args.value) else [])
  }

  function Kept(annos: seq<WrittenAnnotation>): seq<Annotation> {
    if annos == [] then [] else [KeptAnnotation(annos[0])] + Kept(annos[1..])
  }

  ghost predicate Proper(args: seq<Written>) {
    forall i :: 0 <= i < |args| ==> Grammatical(args[i].value)
  }

  ghost predicate AllProper(annos: seq<WrittenAnnotation>) {
    forall i :: 0 <= i < |annos| && annos[i].args.Some? ==> Proper(annos[i].args.value)
  }

  // ---------- arguments ----------

  /** A tree holds no `=`, and does not start with `)` or `,`. */
  lemma {:induction false} NoEquals(t: Tree)
    requires Grammatical(t)
    ensures Equals !in Yield(t) && Yield(t)[0] != RParen && Yield(t)[0] != Comma
    decreases t
  {
    match t
    case Atom(_) =>
    case Prefix(_, a) => NoEquals(a);
    case Group(i) => NoEquals(i);
    case Binary(l, _, r) =>
      NoEquals(l);
      NoEquals(r);
  }

  lemma KeyReads(a: Written, rest: seq<Token>)
    requires Grammatical(a.value) && rest != [] && rest[0] != Equals
    ensures ArgumentKey(SpellArgument(a) + rest) == (a.key, Yield(a.value) + rest)
  {
    var ts := SpellArgument(a) + rest;
    NoEquals(a.value);
    if a.key.Some? {
      assert ts[0] == Ident(a.key.value) && ts[1] == Equals && ts[2..] == Yield(a.value) + rest;
    } else {
      assert ts == Yield(a.value) + rest;
      assert |ts| > 1 && (|Yield(a.value)| > 1 ==> ts[1] in Yield(a.value));
    }
  }

  lemma ArgumentReads(a: Written, rest: seq<Token>)
    requires Grammatical(a.value) && rest != [] && (rest[0] == Comma || rest[0] == RParen)
    ensures Argument(SpellArgument(a) + rest) == Parsed((a.key, Text(a.value)), rest)
  {
    hide ArgumentKey, SpellArgument, Yield, Expression, Text;
    KeyReads(a, rest);
    BoundPositive(a.value);
    ParserIsGrammar(Yield(a.value) + rest, 0, a.value, rest);
  }

  lemma {:induction false} ArgumentsRead(args: seq<Written>, rest: seq<Token>)
    requires Proper(args) && rest != [] && rest[0] == RParen
    ensures Arguments(SpellArguments(args) + rest) == Parsed(KeptArguments(args), rest)
    decreases |args|
  {
    hide Arguments, SpellArguments, Grammatical, KeptArguments;
    SpellArgumentsStep(args, rest);
    if args == [] {
      NoArgument(rest);
    } else {
      var a, more := args[0], args[1..];
      if |args| > 1 {
        ArgumentsRead(more, rest);
        OneMore(a, SpellArguments(more) + rest);
      } else {
        LastArgument(a, rest);
      }
    }
  }

  lemma SpellArgumentsStep(args: seq<Written>, rest: seq<Token>)
    ensures args == [] ==> SpellArguments(args) + rest == rest && KeptArguments(args) == []
    ensures args != [] ==>
              && KeptArguments(args) == [(args[0].key, Text(args[0].value))] + KeptArguments(args[1..])
              && SpellArguments(args) + rest == SpellArgument(args[0]) +
                 if |args| == 1 then rest else [Comma] + (SpellArguments(args[1..]) + rest)
    ensures |args| == 1 ==> KeptArguments(args) == [(args[0].key, Text(args[0].value))]
  {
    hide SpellArgument, Text;
    assert |args| == 1 ==> KeptArguments(args[1..]) == [];
  }

  lemma NoArgument(rest: seq<Token>)
    requires Peek(rest) == RParen
    ensures Arguments(rest) == Parsed([], rest)
  {}

  lemma LastArgument(a: Written, rest: seq<Token>)
    requires Grammatical(a.value) && rest != [] && rest[0] == RParen
    ensures Arguments(SpellArgument(a) + rest) == Parsed([(a.key, Text(a.value))], rest)
  {
    hide Argument, SpellArgument, Text, Weight, Grammatical;
    NotClosing(a);
    ArgumentReads(a, rest);
  }

  lemma OneMore(a: Written, ts: seq<Token>)
    requires Grammatical(a.value)
    ensures Arguments(SpellArgument(a) + ([Comma] + ts)) ==
            match Arguments(ts)
            case Failed(e) => Failed(e)
            case Parsed(more, rest) => Parsed([(a.key, Text(a.value))] + more, rest)
  {
    hide Argument, SpellArgument, Text, Weight, Grammatical;
    NotClosing(a);
    ArgumentReads(a, [Comma] + ts);
    assert ([Comma] + ts)[1..] == ts;
  }

  lemma NotClosing(a: Written)
    requires Grammatical(a.value)
    ensures SpellArgument(a)[0] != RParen
  {
    NoEquals(a.value);
  }

  // ---------- annotations ----------

  lemma AnnotationReads(a: WrittenAnnotation, rest: seq<Token>)
    requires (a.args.Some? ==> Proper(a.args.value)) && Peek(rest) != LParen
    ensures NamedAnnotation((SpellAnnotation(a) + rest)[1..]) == Parsed(KeptAnnotation(a), rest)
  {
    var ts := (SpellAnnotation(a) + rest)[1..];
    assert ts[0] == Ident(a.name);
    if a.args.Some? {
      var args := SpellArguments(a.args.value);
      assert ts[1..] == [LParen] + (args + ([RParen] + rest));
      assert ts[1..][1..] == args + ([RParen] + rest);
      ArgumentsRead(a.args.value, [RParen] + rest);
      assert ([RParen] + rest)[1..] == rest;
    } else {
      assert ts[1..] == rest;
    }
  }

  /** Annotations are read as they are written, up to what cannot belong to them. */
  lemma {:induction false} AnnotationsRead(annos: seq<WrittenAnnotation>, rest: seq<Token>)
    requires AllProper(annos) && Peek(rest) != At && Peek(rest) != LParen
    ensures Annotations(SpellAnnotations(annos) + rest) == Parsed(Kept(annos), rest)
    decreases |annos|
  {
    hide Annotations, NamedAnnotation, KeptAnnotation, SpellAnnotation, Weight, Proper;
    var ts := SpellAnnotations(annos) + rest;
    if annos == [] {
      assert ts == rest;
      NoneFollow(rest);
    } else {
      var a, more := annos[0], annos[1..];
      var after := SpellAnnotations(more) + rest;
      AnnotationsRead(more, rest);
      assert ts == SpellAnnotation(a) + after;
      StartsWithAt(a, after);
      AfterAnnotations(more, rest);
      AnnotationReads(a, after);
      OneFollows(ts, KeptAnnotation(a), after, Kept(more), rest);
    }
  }

  lemma NoneFollow(ts: seq<Token>)
    requires Peek(ts) != At
    ensures Annotations(ts) == Parsed([], ts)
  {}

  lemma OneFollows(ts: seq<Token>, a: Annotation, after: seq<Token>, more: seq<Annotation>, rest: seq<Token>)
    requires ts != [] && ts[0] == At && NamedAnnotation(ts[1..]) == Parsed(a, after)
    requires Annotations(after) == Parsed(more, rest)
    ensures Annotations(ts) == Parsed([a] + more, rest)
  {
    hide NamedAnnotation;
  }

  lemma StartsWithAt(a: WrittenAnnotation, rest: seq<Token>)
    ensures SpellAnnotation(a) + rest != [] && (SpellAnnotation(a) + rest)[0] == At
  {}

  lemma AfterAnnotations(annos: seq<WrittenAnnotation>, rest: seq<Token>)
    requires Peek(rest) != LParen
    ensures Peek(SpellAnnotations(annos) + rest) != LParen
  {
    if annos == [] {
      assert SpellAnnotations(annos) + rest == rest;
    }
  }

  // ---------- before a type ----------

  ghost predicate SaysNullable(annos: seq<WrittenAnnotation>) {
    exists i :: 0 <= i < |annos| && annos[i].name == "nullable"
  }

  lemma {:induction false} KeptNames(annos: seq<WrittenAnnotation>)
    ensures |Kept(annos)| == |annos|
    ensures forall i :: 0 <= i < |annos| ==> Kept(annos)[i].name == annos[i].name
    decreases |annos|
  {
    if annos != [] {
      KeptNames(annos[1..]);
    }
  }

  /** Annotations, with or without arguments, change nothing about the type they stand before but that
      it is nullable if one of them is called `nullable`, and not otherwise. */
  lemma AnnotatedType(annos: seq<WrittenAnnotation>, ts: seq<Token>)
    requires AllProper(annos) && Peek(ts).Ident?
    ensures Type(SpellAnnotations(annos) + ts) ==
            match Type(ts)
            case Failed(e) => Failed(e)
            case Parsed(ty, rest) => Parsed(ty.(nullable := SaysNullable(annos)), rest)
  {
    hide SpellAnnotations, Kept, Nullable, SaysNullable, TypeArguments, Dimensions, QualifiedIdent, ShapeFault;
    AnnotationsRead(annos, ts);
    KeptNullable(annos);
    NoAnnotation(ts);
    forall ty: AidlType, n: bool ensures ShapeFault(ty.(nullable := n)) == ShapeFault(ty) {
      ShapeIgnoresNullable(ty, n);
    }
  }

  lemma KeptNullable(annos: seq<WrittenAnnotation>)
    ensures Nullable(Kept(annos)) <==> SaysNullable(annos)
  {
    hide Kept;
    KeptNames(annos);
  }

  lemma NoAnnotation(ts: seq<Token>)
    requires Peek(ts).Ident?
    ensures Annotations(ts) == Parsed([], ts) && !Nullable([])
  {}

  lemma ShapeIgnoresNullable(ty: AidlType, n: bool)
    ensures ShapeFault(ty.(nullable := n)) == ShapeFault(ty)
  {}
}
