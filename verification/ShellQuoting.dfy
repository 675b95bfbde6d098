/** Quoting of command arguments (crates/adb-protocol/src/adb_utils.rs:10-52), against the reading of
    quotes in section 2.2 of POSIX.1-2017, Shell Command Language. */
module ShellQuoting {
  import opened Wrappers

  // ---------- how a shell reads a command ----------

  /** Outside quotes, inside single quotes, after a backslash, or beyond what is modelled. */
  datatype Mode = Plain | Quoted | Escaped | Other

  /** Words read, and the one being read. */
  datatype State = State(words: seq<string>, word: Option<string>, mode: Mode)

  const START := State([], None, Plain)

  const SPECIAL: seq<char> :=
    ['|', '&', ';', '<', '>', '(', ')', '$', '`', '"', '*', '?', '[', '#', '~', '=', '%', '\n']

  function Begun(w: Option<string>): string {
    if w.Some? then w.value else ""
  }

  function Ended(words: seq<string>, w: Option<string>): seq<string> {
    if w.Some? then words + [w.value] else words
  }

  function Step(s: State, c: char): State {
    match s.mode
    case Plain =>
      if c == '\'' then s.(word := Some(Begun(s.word)), mode := Quoted)
      else if c == '\\' then s.(mode := Escaped)
      else if c == ' ' || c == '\t' then State(Ended(s.words, s.word), None, Plain)
      else if c in SPECIAL then s.(mode := Other)
      else s.(word := Some(Begun(s.word) + [c]))
    case Quoted => if c == '\'' then s.(mode := Plain) else s.(word := Some(Begun(s.word) + [c]))
    case Escaped => if c == '\n' then s.(mode := Plain) else s.(word := Some(Begun(s.word) + [c]), mode := Plain)
    case Other => s
  }

  function Read(s: State, text: string): State
    decreases |text|
  {
    if text == "" then s else Read(Step(s, text[0]), text[1..])
  }

  /** The words of a command, if it can be read to its end. */
  function Words(text: string): Option<seq<string>> {
    var s := Read(START, text);
    if s.mode == Plain then Some(Ended(s.words, s.word)) else None
  }

  lemma {:induction false} ReadOn(s: State, a: string, b: string)
    ensures Read(s, a + b) == Read(Read(s, a), b)
    decreases |a|
  {
    if a == "" {
      assert a + b == b;
    } else {
      assert (a + b)[1..] == a[1..] + b;
      ReadOn(Step(s, a[0]), a[1..], b);
    }
  }

  // ---------- quoting ----------

  /** Every quote closed, escaped and opened again. */
  function Inner(s: string): string {
    if s == "" then "" else (if s[0] == '\'' then "'\\''" else [s[0]]) + Inner(s[1..])
  }

  function Escape(s: string): string {
    "'" + Inner(s) + "'"
  }

  lemma {:induction false} InnerConcat(a: string, b: string)
    ensures Inner(a + b) == Inner(a) + Inner(b)
    decreases |a|
  {
    if a == "" {
      assert a + b == b && "" + Inner(b) == Inner(b);
    } else {
      assert (a + b)[1..] == a[1..] + b;
      InnerConcat(a[1..], b);
    }
  }

  lemma {:induction false} InnerPlain(a: string)
    requires '\'' !in a
    ensures Inner(a) == a
    decreases |a|
  {
    if a != "" {
      InnerPlain(a[1..]);
      assert a == [a[0]] + a[1..];
    }
  }

  method FindQuote(s: string, from: nat) returns (found: Option<nat>)
    requires from <= |s|
    ensures found.None? ==> '\'' !in s[from..]
    ensures found.Some? ==> from <= found.value < |s| && s[found.value] == '\'' && '\'' !in s[from..found.value]
  {
    for i := from to |s|
      invariant '\'' !in s[from..i]
    {
      if s[i] == '\'' {
        return Some(i);
      }
    }
    assert s[from..|s|] == s[from..];
    found := None;
  }

  /** `escape_arg`: copies the runs between quotes. */
  method EscapeArg(s: string) returns (result: string)
    ensures result == Escape(s)
  {
    result := "'";
    var base := 0;
    while true
      invariant base <= |s| && result == "'" + Inner(s[..base])
      decreases |s| - base
    {
      var found := FindQuote(s, base);
      if found.None? {
        result := result + s[base..];
        RunCopied(s, base, |s|);
        assert s[..|s|] == s && s[base..|s|] == s[base..];
        break;
      }
      result := result + s[base..found.value];
      RunCopied(s, base, found.value);
      result := result + "'\\''";
      QuoteCopied(s, found.value);
      base := found.value + 1;
    }
    result := result + "'";
  }

  lemma RunCopied(s: string, from: nat, to: nat)
    requires from <= to <= |s| && '\'' !in s[from..to]
    ensures "'" + Inner(s[..from]) + s[from..to] == "'" + Inner(s[..to])
  {
    assert s[..from] + s[from..to] == s[..to];
    InnerConcat(s[..from], s[from..to]);
    InnerPlain(s[from..to]);
  }

  lemma QuoteCopied(s: string, at: nat)
    requires at < |s| && s[at] == '\''
    ensures "'" + Inner(s[..at]) + "'\\''" == "'" + Inner(s[..at + 1])
  {
    assert s[..at] + [s[at]] == s[..at + 1];
    InnerConcat(s[..at], [s[at]]);
    OneQuote();
  }

  lemma OneQuote()
    ensures Inner("'") == "'\\''"
  {
    assert "'"[1..] == "";
    assert "'\\''" + Inner("") == "'\\''";
  }

  // ---------- a quoted argument reads as itself ----------

  lemma {:induction false} InnerRead(st: State, s: string)
    requires st.mode == Quoted && st.word.Some?
    ensures Read(st, Inner(s)) == st.(word := Some(st.word.value + s))
    decreases |s|
  {
    if s == "" {
      assert st.word.value + s == st.word.value;
    } else {
      var next := st.(word := Some(st.word.value + [s[0]]));
      var one := if s[0] == '\'' then "'\\''" else [s[0]];
      OneRead(st, s[0]);
      ReadOn(st, one, Inner(s[1..]));
      InnerRead(next, s[1..]);
      assert st.word.value + [s[0]] + s[1..] == st.word.value + s;
    }
  }

  lemma OneRead(st: State, c: char)
    requires st.mode == Quoted && st.word.Some?
    ensures Read(st, if c == '\'' then "'\\''" else [c]) == st.(word := Some(st.word.value + [c]))
  {
    if c == '\'' {
      var t := "'\\''";
      var s1 := Step(st, '\'');
      var s2 := Step(s1, '\\');
      var s3 := Step(s2, '\'');
      assert t[1..] == "\\''" && "\\''"[1..] == "''" && "''"[1..] == "'" && "'"[1..] == "";
      assert Read(st, t) == Read(s1, "\\''");
      assert Read(s1, "\\''") == Read(s2, "''");
      assert Read(s2, "''") == Read(s3, "'") == Step(s3, '\'');
    } else {
      assert [c][1..] == "";
    }
  }

  /** Whatever it holds, a quoted argument adds itself to the word being read, and leaves quoting. */
  lemma EscapeRead(st: State, s: string)
    requires st.mode == Plain
    ensures Read(st, Escape(s)) == st.(word := Some(Begun(st.word) + s))
  {
    var open := st.(word := Some(Begun(st.word)), mode := Quoted);
    assert ("'" + Inner(s) + "'")[0] == '\'';
    assert Escape(s)[1..] == Inner(s) + "'";
    ReadOn(open, Inner(s), "'");
    InnerRead(open, s);
    var closed := st.(word := Some(Begun(st.word) + s), mode := Quoted);
    assert "'"[1..] == "";
    assert Read(closed, "'") == Read(Step(closed, '\''), "");
  }

  // ---------- a whole command ----------

  function QuotedArgs(args: seq<string>): string {
    if args == [] then "" else " " + Escape(args[0]) + QuotedArgs(args[1..])
  }

  /** What a device gets after `exec:`: the program as it is, the arguments quoted. */
  function Command(args: seq<string>): string {
    if args == [] then "" else args[0] + QuotedArgs(args[1..])
  }

  const EXEC := "exec:"

  /** `exec_service_string`. */
  method ExecServiceString(args: seq<string>) returns (cmd: string)
    ensures cmd == "exec:" + Command(args)
  {
    cmd := EXEC;
    if args == [] {
      return;
    }
    cmd := cmd + args[0];
    var rest := args[1..];
    for i := 0 to |rest|
      invariant cmd + QuotedArgs(rest[i..]) == EXEC + Command(args)
    {
      var quoted := EscapeArg(rest[i]);
      assert rest[i..][1..] == rest[i + 1..];
      Regroup(cmd, " ", quoted, QuotedArgs(rest[i + 1..]));
      cmd := cmd + " " + quoted;
    }
    assert rest[|rest|..] == [] && cmd + "" == cmd;
  }

  lemma Regroup(a: string, b: string, c: string, d: string)
    ensures a + (b + c + d) == a + b + c + d
  {}

  lemma {:induction false} QuotedRead(st: State, args: seq<string>)
    requires st.mode == Plain
    ensures var r := Read(st, QuotedArgs(args));
            r.mode == Plain && Ended(r.words, r.word) == Ended(st.words, st.word) + args
    decreases |args|
  {
    if args == [] {
      assert Ended(st.words, st.word) + [] == Ended(st.words, st.word);
    } else {
      var next := State(Ended(st.words, st.word), None, Plain);
      var more := QuotedArgs(args[1..]);
      ReadOn(st, " " + Escape(args[0]), more);
      ReadOn(st, " ", Escape(args[0]));
      assert " "[1..] == "" && Read(st, " ") == next;
      EscapeRead(next, args[0]);
      assert "" + args[0] == args[0];
      var after := next.(word := Some(args[0]));
      QuotedRead(after, args[1..]);
      assert next.words + [args[0]] + args[1..] == next.words + args;
    }
  }

  /** The shell gets every argument as it was given, whatever characters are in it, after the words
      of the program text, if that text can be read by itself. */
  lemma CommandRead(args: seq<string>)
    requires args != []
    ensures Words(args[0]).Some? ==> Words(Command(args)) == Some(Words(args[0]).value + args[1..])
  {
    ReadOn(START, args[0], QuotedArgs(args[1..]));
    if Words(args[0]).Some? {
      QuotedRead(Read(START, args[0]), args[1..]);
    }
  }

  /** The words of some fixed front, then the arguments as given. */
  ghost predicate PassesArguments(program: string, front: seq<string>) {
    forall args: seq<string> :: Words(Command([program] + args)) == Some(front + args)
  }

  /** Every argument list is passed on exactly, if and only if the program text can be read by itself. */
  lemma PassedOnIff(program: string)
    ensures (exists front :: PassesArguments(program, front)) <==> Words(program).Some?
  {
    if Words(program).Some? {
      forall args: seq<string>
        ensures Words(Command([program] + args)) == Some(Words(program).value + args)
      {
        assert ([program] + args)[0] == program && ([program] + args)[1..] == args;
        CommandRead([program] + args);
      }
      assert PassesArguments(program, Words(program).value);
    }
    if front :| PassesArguments(program, front) {
      assert Words(Command([program] + [])) == Some(front + []);
      assert ([program] + [])[1..] == [] && program + "" == program;
      assert Command([program] + []) == program;
    }
  }

  predicate Ordinary(c: char) {
    c !in ['\'', '\\', ' ', '\t'] && c !in SPECIAL
  }

  lemma {:induction false} OrdinaryRead(st: State, s: string)
    requires st.mode == Plain && forall i :: 0 <= i < |s| ==> Ordinary(s[i])
    ensures Read(st, s) == if s == "" then st else st.(word := Some(Begun(st.word) + s))
    decreases |s|
  {
    if s != "" {
      var next := st.(word := Some(Begun(st.word) + [s[0]]));
      assert Step(st, s[0]) == next && s == [s[0]] + s[1..];
      OrdinaryRead(next, s[1..]);
      assert Begun(st.word) + [s[0]] + s[1..] == Begun(st.word) + s;
      assert s[1..] == "" ==> s == [s[0]];
      assert Read(st, s) == Read(next, s[1..]) == st.(word := Some(Begun(st.word) + s));
    }
  }

  /** A program name of ordinary characters: the command reads as the argument list itself. */
  lemma CommandRoundTrip(args: seq<string>)
    requires args != [] && args[0] != "" && forall i :: 0 <= i < |args[0]| ==> Ordinary(args[0][i])
    ensures Words(Command(args)) == Some(args)
  {
    OrdinaryRead(START, args[0]);
    assert "" + args[0] == args[0];
    CommandRead(args);
    assert [] + [args[0]] + args[1..] == args;
  }

  /** A program name with a quote in it goes out as it is, and the shell waits for its end. */
  lemma QuoteInProgram()
    ensures Words(Command(["i'test"])) == None
  {
    hide Read, Step;
    var p := "i'test";
    assert Command([p]) == p by {
      assert [p][1..] == [] && p + "" == p;
    }
    OpenQuote();
    ReadOn(START, "i'", "test");
    assert "i'" + "test" == p;
    QuotedStays(Read(START, "i'"), "test");
  }

  lemma OpenQuote()
    ensures Read(START, "i'").mode == Quoted
  {
    assert "i'"[1..] == "'" && "'"[1..] == "";
    assert Read(START, "i'") == Read(Step(START, 'i'), "'");
  }

  lemma {:induction false} QuotedStays(st: State, s: string)
    requires st.mode == Quoted && '\'' !in s
    ensures Read(st, s).mode == Quoted
    decreases |s|
  {
    if s != "" {
      QuotedStays(Step(st, s[0]), s[1..]);
    }
  }
}
