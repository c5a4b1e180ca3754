/** The developer console's command parser, generated from
    TblGen/Backends/Commands.template.cs for each `Command` record: the
    tokenizer that splits a line into the command name and its parameter
    values, and the rules that assign the values to the command's parameters,
    fill in defaults and convert them to the parameter types. */
module Commands {
  import opened Wrappers
  import opened DecimalText

  /** A value from the command line, with the name written before '=' if any. */
  datatype ParamValue = ParamValue(name: Option<string>, value: string)

  /** What a '"' does inside a quoted value. The program as written reopens
      the quote at once (`ReopenQuote`); closing it (`CloseQuote`) is the
      evident intent. */
  datatype QuoteRule = ReopenQuote | CloseQuote

  /** The tokenizer's state after a prefix of the line: the command name once
      read, the completed parameter values, the token being read, the name
      given to it by '=', whether it is inside quotes, and whether a token has
      been started since the last space. */
  datatype Lexer =
    | Lexing(cmd: Option<string>, values: seq<ParamValue>, current: string,
             paramName: Option<string>, quoted: bool, pending: bool)
    | Failed

  const Start: Lexer := Lexing(None, [], [], None, false, false)

  /** A token is complete: the first one is the command name, every later one
      a parameter value. */
  function Emit(st: Lexer): (r: Lexer)
    requires st.Lexing?
    ensures r.Lexing? && r.current == [] && r.paramName.None? && !r.quoted && !r.pending
  {
    if st.cmd.None? then Lexing(Some(st.current), st.values, [], None, false, false)
    else Lexing(st.cmd, st.values + [ParamValue(st.paramName, st.current)], [], None, false, false)
  }

  /** The tokenizer reads one character. */
  function Step(st: Lexer, c: char, rule: QuoteRule): Lexer
  {
    match st
    case Failed => Failed
    case Lexing(cmd, values, current, paramName, quoted, pending) =>
      if quoted then
        if c != '"' then st.(current := current + [c])
        else if rule == ReopenQuote then st
        else st.(quoted := false)
      else if c == ' ' then Emit(st)
      else if c == '"' then st.(quoted := true, pending := true)
      else if c == '=' then
        if cmd.None? || current == [] then Failed
        else st.(paramName := Some(current), current := [], pending := true)
      else st.(current := current + [c], pending := true)
  }

  /** The state after reading `s` from `st`. */
  function RunFrom(st: Lexer, s: string, rule: QuoteRule): Lexer
  {
    if s == [] then st else Step(RunFrom(st, s[..|s| - 1], rule), s[|s| - 1], rule)
  }

  /** The end of the line completes a started token. */
  function Finish(st: Lexer): Lexer
  {
    if st.Lexing? && st.pending then Emit(st) else st
  }

  /** What the tokenizer makes of a line. */
  datatype Tokens = UnexpectedEquals | Tokens(cmd: Option<string>, values: seq<ParamValue>)

  function Tokenize(s: string, rule: QuoteRule): Tokens
  {
    var st := Finish(RunFrom(Start, s, rule));
    if st.Failed? then UnexpectedEquals else Tokens(st.cmd, st.values)
  }

  /** The tokenizer of the program as written. */
  function TokenizeAsWritten(s: string): Tokens
  {
    Tokenize(s, ReopenQuote)
  }

  lemma RunStep(s: string, i: int, rule: QuoteRule)
    requires 0 <= i < |s|
    ensures RunFrom(Start, s[..i + 1], rule) == Step(RunFrom(Start, s[..i], rule), s[i], rule)
  {
    assert s[..i + 1][..i] == s[..i];
  }

  /** Reading two pieces one after the other. */
  lemma {:induction false} RunConcat(st: Lexer, a: string, b: string, rule: QuoteRule)
    ensures RunFrom(st, a + b, rule) == RunFrom(RunFrom(st, a, rule), b, rule)
    decreases |b|
  {
    if b == [] {
      assert a + b == a;
    } else {
      assert (a + b)[..|a + b| - 1] == a + b[..|b| - 1];
      RunConcat(st, a, b[..|b| - 1], rule);
    }
  }

  /** Once the line has been rejected, the rest of it changes nothing. */
  lemma {:induction false} RunFailed(s: string, rule: QuoteRule)
    ensures RunFrom(Failed, s, rule) == Failed
  {
    if s != [] {
      RunFailed(s[..|s| - 1], rule);
    }
  }

  lemma RunOne(st: Lexer, c: char, rule: QuoteRule)
    ensures RunFrom(st, [c], rule) == Step(st, c, rule)
  {
    assert [c][..0] == [];
  }

  lemma RunTwo(st: Lexer, c: char, d: char, rule: QuoteRule)
    ensures RunFrom(st, [c, d], rule) == Step(Step(st, c, rule), d, rule)
  {
    assert [c, d][..1] == [c];
    RunOne(st, c, rule);
  }

  lemma RunSnoc(st: Lexer, w: string, c: char, rule: QuoteRule)
    ensures RunFrom(st, w + [c], rule) == Step(RunFrom(st, w, rule), c, rule)
  {
    assert (w + [c])[..|w|] == w;
  }

  /** The characters of a quoted part, up to the closing '"' or the end of
      the line. */
  method ReadQuotedChars(rawCmd: string, from: nat, current0: string, ghost st: Lexer)
    returns (i: nat, current: string)
    requires from <= |rawCmd| && st.Lexing? && st.quoted && st.current == current0
    requires RunFrom(Start, rawCmd[..from], CloseQuote) == st
    ensures from <= i <= |rawCmd| && (i < |rawCmd| ==> rawCmd[i] == '"')
    ensures RunFrom(Start, rawCmd[..i], CloseQuote) == st.(current := current)
  {
    i, current := from, current0;
    while i < |rawCmd| && rawCmd[i] != '"'
      invariant from <= i <= |rawCmd|
      invariant RunFrom(Start, rawCmd[..i], CloseQuote) == st.(current := current)
    {
      RunStep(rawCmd, i, CloseQuote);
      current := current + [rawCmd[i]];
      i := i + 1;
    }
  }

  /** A quoted part, from its opening '"' at `from` to just after its closing
      one, or to the end of the line when it is not closed. */
  method ReadQuoted(rawCmd: string, from: nat, current0: string, ghost st: Lexer)
    returns (i: nat, current: string, closed: bool)
    requires from < |rawCmd| && rawCmd[from] == '"'
    requires st.Lexing? && !st.quoted && st.current == current0
    requires RunFrom(Start, rawCmd[..from], CloseQuote) == st
    ensures from < i <= |rawCmd| && (!closed ==> i == |rawCmd|)
    ensures RunFrom(Start, rawCmd[..i], CloseQuote) == st.(current := current, quoted := !closed, pending := true)
  {
    StepOpenQuote(rawCmd, from, st);
    ghost var open := st.(quoted := true, pending := true);
    i, current := ReadQuotedChars(rawCmd, from + 1, current0, open);
    if i == |rawCmd| {
      closed := false;
    } else {
      StepCloseQuote(rawCmd, i, open.(current := current));
      i, closed := i + 1, true;
    }
  }

  /** A '=' the tokenizer rejects ends the whole line. */
  lemma FailedPrefix(rawCmd: string, i: nat)
    requires i <= |rawCmd| && RunFrom(Start, rawCmd[..i], CloseQuote) == Failed
    ensures Tokenize(rawCmd, CloseQuote) == UnexpectedEquals
  {
    assert rawCmd[..i] + rawCmd[i..] == rawCmd;
    RunConcat(Start, rawCmd[..i], rawCmd[i..], CloseQuote);
    RunFailed(rawCmd[i..], CloseQuote);
  }

  /** An opening '"'. */
  lemma StepOpenQuote(rawCmd: string, i: nat, st: Lexer)
    requires i < |rawCmd| && rawCmd[i] == '"'
    requires st.Lexing? && !st.quoted && RunFrom(Start, rawCmd[..i], CloseQuote) == st
    ensures RunFrom(Start, rawCmd[..i + 1], CloseQuote) == st.(quoted := true, pending := true)
  {
    RunStep(rawCmd, i, CloseQuote);
  }

  /** A '=' outside quotes: after a name it names the value that follows,
      otherwise the line is rejected. */
  lemma StepEquals(rawCmd: string, i: nat, st: Lexer)
    requires i < |rawCmd| && rawCmd[i] == '='
    requires st.Lexing? && !st.quoted && RunFrom(Start, rawCmd[..i], CloseQuote) == st
    ensures RunFrom(Start, rawCmd[..i + 1], CloseQuote) ==
      if st.cmd.None? || st.current == [] then Failed
      else st.(paramName := Some(st.current), current := [], pending := true)
  {
    RunStep(rawCmd, i, CloseQuote);
  }

  /** Any other character outside quotes is added to the token. */
  lemma StepWord(rawCmd: string, i: nat, st: Lexer)
    requires i < |rawCmd| && rawCmd[i] != ' ' && rawCmd[i] != '"' && rawCmd[i] != '='
    requires st.Lexing? && !st.quoted && RunFrom(Start, rawCmd[..i], CloseQuote) == st
    ensures RunFrom(Start, rawCmd[..i + 1], CloseQuote) == st.(current := st.current + [rawCmd[i]], pending := true)
  {
    RunStep(rawCmd, i, CloseQuote);
  }

  /** The closing '"' of a quoted part. */
  lemma StepCloseQuote(rawCmd: string, i: nat, st: Lexer)
    requires i < |rawCmd| && rawCmd[i] == '"'
    requires st.Lexing? && st.quoted && RunFrom(Start, rawCmd[..i], CloseQuote) == st
    ensures RunFrom(Start, rawCmd[..i + 1], CloseQuote) == st.(quoted := false)
  {
    RunStep(rawCmd, i, CloseQuote);
  }

  /** One token: the characters up to the next space outside quotes, or up
      to the end of the line; `failed` when a '=' is rejected. */
  method ReadToken(rawCmd: string, start: nat, cmd: Option<string>, values: seq<ParamValue>)
    returns (i: nat, current: string, parameterName: Option<string>, done: bool, failed: bool, ghost quoted: bool)
    requires start <= |rawCmd|
    requires RunFrom(Start, rawCmd[..start], CloseQuote) == Lexing(cmd, values, [], None, false, false)
    ensures failed ==> Tokenize(rawCmd, CloseQuote) == UnexpectedEquals
    ensures !failed ==> (start <= i <= |rawCmd|
      && RunFrom(Start, rawCmd[..i], CloseQuote) == Lexing(cmd, values, current, parameterName, quoted, i > start)
      && (done ==> i < |rawCmd| && rawCmd[i] == ' ' && !quoted)
      && (!done ==> i == |rawCmd|))
  {
    i, current, parameterName, done, failed, quoted := start, [], None, false, false, false;
    while i < |rawCmd|
      invariant start <= i <= |rawCmd| && !done && !failed && !quoted
      invariant RunFrom(Start, rawCmd[..i], CloseQuote)
        == Lexing(cmd, values, current, parameterName, false, i > start)
    {
      var c := rawCmd[i];
      if c == ' ' {
        done := true;
        return;
      }
      ghost var st0 := Lexing(cmd, values, current, parameterName, false, i > start);
      if c == '"' {
        var closed;
        i, current, closed := ReadQuoted(rawCmd, i, current, st0);
        if !closed {
          quoted := true;
          return;
        }
      } else if c == '=' {
        StepEquals(rawCmd, i, st0);
        if cmd.None? || current == [] {
          FailedPrefix(rawCmd, i + 1);
          failed := true;
          return;
        }
        parameterName := Some(current);
        current := [];
        i := i + 1;
      } else {
        StepWord(rawCmd, i, st0);
        current := current + [c];
        i := i + 1;
      }
    }
  }

  /** `ParseCommand`, first part: split the line into tokens, character by
      character. A '"' starts a quoted part that runs up to the next '"'. */
  method ParseTokens(rawCmd: string) returns (r: Tokens)
    ensures r == Tokenize(rawCmd, CloseQuote)
  {
    var cmd: Option<string> := None;
    var values: seq<ParamValue> := [];
    var i := 0;
    while i < |rawCmd|
      invariant 0 <= i <= |rawCmd| + 1
      invariant i <= |rawCmd| ==> RunFrom(Start, rawCmd[..i], CloseQuote) == Lexing(cmd, values, [], None, false, false)
      invariant i == |rawCmd| + 1 ==> Tokenize(rawCmd, CloseQuote) == Tokens(cmd, values)
    {
      ghost var start := i;
      var current, parameterName, done, failed;
      ghost var quoted;
      i, current, parameterName, done, failed, quoted := ReadToken(rawCmd, i, cmd, values);
      if failed {
        return UnexpectedEquals;
      }
      ghost var next := Emit(Lexing(cmd, values, current, parameterName, quoted, i > start));
      if done {
        RunStep(rawCmd, i, CloseQuote);
        assert RunFrom(Start, rawCmd[..i + 1], CloseQuote) == next;
      } else {
        assert rawCmd[..i] == rawCmd;
        assert Finish(RunFrom(Start, rawCmd, CloseQuote)) == next;
      }
      if cmd.None? {
        cmd := Some(current);
      } else {
        values := values + [ParamValue(parameterName, current)];
      }
      i := i + 1;
      assert next == Lexing(cmd, values, [], None, false, false);
    }
    if i == |rawCmd| {
      assert rawCmd[..i] == rawCmd;
    }
    r := Tokens(cmd, values);
  }

  // ---------------------------------------------------------------------------
  // What the tokenizer does with words, names and quotes
  // ---------------------------------------------------------------------------

  /** A word: no space, quote or '='. */
  predicate Plain(w: string)
  {
    forall k :: 0 <= k < |w| ==> w[k] != ' ' && w[k] != '"' && w[k] != '='
  }

  predicate NoQuote(w: string)
  {
    forall k :: 0 <= k < |w| ==> w[k] != '"'
  }

  /** A word is added to the token being read. */
  lemma {:induction false} WordRun(st: Lexer, w: string, rule: QuoteRule)
    requires st.Lexing? && !st.quoted && Plain(w)
    ensures RunFrom(st, w, rule) == st.(current := st.current + w, pending := st.pending || w != [])
  {
    if w == [] {
      assert st.current + w == st.current;
    } else {
      var init := w[..|w| - 1];
      assert Plain(init) by {
        forall k | 0 <= k < |init| ensures init[k] != ' ' && init[k] != '"' && init[k] != '=' {
          assert init[k] == w[k];
        }
      }
      WordRun(st, init, rule);
      assert st.current + init + [w[|w| - 1]] == st.current + w;
    }
  }

  /** Inside quotes, text without a quote is added to the token as it is,
      spaces and '=' included. */
  lemma {:induction false} QuotedRun(st: Lexer, w: string, rule: QuoteRule)
    requires st.Lexing? && st.quoted && NoQuote(w)
    ensures RunFrom(st, w, rule) == st.(current := st.current + w)
  {
    if w == [] {
      assert st.current + w == st.current;
    } else {
      var init := w[..|w| - 1];
      assert NoQuote(init) by {
        forall k | 0 <= k < |init| ensures init[k] != '"' {
          assert init[k] == w[k];
        }
      }
      QuotedRun(st, init, rule);
      assert st.current + init + [w[|w| - 1]] == st.current + w;
    }
  }

  /** A command line of words separated by single spaces. */
  function Line(cmd: string, args: seq<string>): string
  {
    if args == [] then cmd else Line(cmd, args[..|args| - 1]) + [' '] + args[|args| - 1]
  }

  /** Values given by position. */
  function Positional(args: seq<string>): (r: seq<ParamValue>)
    ensures |r| == |args| && forall k :: 0 <= k < |args| ==> r[k] == ParamValue(None, args[k])
  {
    seq(|args|, k requires 0 <= k < |args| => ParamValue(None, args[k]))
  }

  /** The state after a line of words: every word but the last one read. */
  lemma {:induction false} RunLine(cmd: string, args: seq<string>, rule: QuoteRule)
    requires Plain(cmd) && forall k :: 0 <= k < |args| ==> Plain(args[k])
    ensures RunFrom(Start, Line(cmd, args), rule)
      == if args == [] then Lexing(None, [], cmd, None, false, cmd != [])
         else Lexing(Some(cmd), Positional(args[..|args| - 1]), args[|args| - 1], None, false, args[|args| - 1] != [])
  {
    if args == [] {
      WordRun(Start, cmd, rule);
    } else {
      var init := args[..|args| - 1];
      var a := args[|args| - 1];
      assert forall k :: 0 <= k < |init| ==> Plain(init[k]) by {
        forall k | 0 <= k < |init| ensures Plain(init[k]) { assert init[k] == args[k]; }
      }
      var e := Lexing(Some(cmd), Positional(init), [], None, false, false);
      assert RunFrom(Start, Line(cmd, init) + [' '], rule) == e by {
        RunLine(cmd, init, rule);
        RunSnoc(Start, Line(cmd, init), ' ', rule);
        if init != [] {
          PositionalSnoc(init);
        }
      }
      assert RunFrom(e, a, rule) == e.(current := a, pending := a != []) by {
        WordRun(e, a, rule);
        assert [] + a == a;
      }
      assert Line(cmd, args) == (Line(cmd, init) + [' ']) + a;
      RunConcat(Start, Line(cmd, init) + [' '], a, rule);
    }
  }

  lemma PositionalSnoc(args: seq<string>)
    requires args != []
    ensures Positional(args) == Positional(args[..|args| - 1]) + [ParamValue(None, args[|args| - 1])]
  {
  }

  /** A line of words gives its first word as the command and the others as
      values by position, in order, when it does not end in a space. */
  lemma TokenizeWords(cmd: string, args: seq<string>, rule: QuoteRule)
    requires Plain(cmd) && forall k :: 0 <= k < |args| ==> Plain(args[k])
    requires (if args == [] then cmd else args[|args| - 1]) != []
    ensures Tokenize(Line(cmd, args), rule) == Tokens(Some(cmd), Positional(args))
  {
    RunLine(cmd, args, rule);
    if args != [] {
      PositionalSnoc(args);
    }
  }

  /** The command name and the space after it. */
  lemma CommandThenSpace(cmd: string, rule: QuoteRule)
    requires Plain(cmd)
    ensures RunFrom(Start, cmd + [' '], rule) == Lexing(Some(cmd), [], [], None, false, false)
  {
    RunSnoc(Start, cmd, ' ', rule);
    WordRun(Start, cmd, rule);
    assert [] + cmd == cmd;
  }

  /** A parameter name and the '=' after it. */
  lemma NameThenEquals(st: Lexer, name: string, rule: QuoteRule)
    requires st.Lexing? && st.cmd.Some? && st.current == [] && !st.quoted
    requires Plain(name) && name != []
    ensures RunFrom(st, name + ['='], rule) == st.(paramName := Some(name), current := [], pending := true)
  {
    RunSnoc(st, name, '=', rule);
    WordRun(st, name, rule);
    assert [] + name == name;
  }

  /** The state after `name=value`: the value is the pending token. */
  lemma RunNamed(cmd: string, name: string, value: string, rule: QuoteRule)
    requires Plain(cmd) && Plain(name) && name != [] && Plain(value)
    ensures RunFrom(Start, ((cmd + [' ']) + (name + ['='])) + value, rule)
      == Lexing(Some(cmd), [], value, Some(name), false, true)
  {
    var e1 := Lexing(Some(cmd), [], [], None, false, false);
    var e2 := Lexing(Some(cmd), [], [], Some(name), false, true);
    CommandThenSpace(cmd, rule);
    NameThenEquals(e1, name, rule);
    RunConcat(Start, cmd + [' '], name + ['='], rule);
    WordRun(e2, value, rule);
    assert [] + value == value;
    RunConcat(Start, (cmd + [' ']) + (name + ['=']), value, rule);
  }

  /** `name=value` gives a named value. */
  lemma TokenizeNamed(cmd: string, name: string, value: string, rule: QuoteRule)
    requires Plain(cmd) && cmd != [] && Plain(name) && name != [] && Plain(value)
    ensures Tokenize(cmd + [' '] + name + ['='] + value, rule)
      == Tokens(Some(cmd), [ParamValue(Some(name), value)])
  {
    Regroup(cmd, ' ', name, '=', value);
    RunNamed(cmd, name, value, rule);
  }

  lemma Regroup(x: string, c: char, y: string, d: char, z: string)
    ensures x + [c] + y + [d] + z == ((x + [c]) + (y + [d])) + z
  {
  }

  /** '=' in the command name, or at the start of a value, rejects the line. */
  lemma TokenizeMisplacedEquals(cmd: string, rest: string, rule: QuoteRule)
    requires Plain(cmd)
    ensures Tokenize(cmd + ['='] + rest, rule) == UnexpectedEquals
    ensures cmd != [] ==> Tokenize(cmd + [' ', '='] + rest, rule) == UnexpectedEquals
  {
    WordRun(Start, cmd, rule);
    var st := RunFrom(Start, cmd, rule);
    RunConcat(Start, cmd, ['='] + rest, rule);
    RunConcat(st, ['='], rest, rule);
    assert ['='][..0] == [];
    RunFailed(rest, rule);
    assert cmd + ['='] + rest == cmd + (['='] + rest);
    if cmd != [] {
      assert cmd + [' ', '='] + rest == cmd + ([' ', '='] + rest);
      RunConcat(Start, cmd, [' ', '='] + rest, rule);
      RunConcat(st, [' ', '='], rest, rule);
      assert [' ', '='][..1] == [' '] && [' '][..0] == [];
    }
  }

  /** A word, then a space and an opening quote. */
  lemma OpenQuote(cmd: string, rule: QuoteRule)
    requires Plain(cmd) && cmd != []
    ensures RunFrom(Start, cmd + [' ', '"'], rule) == Lexing(Some(cmd), [], [], None, true, true)
  {
    assert cmd + [' ', '"'] == (cmd + [' ']) + ['"'];
    RunSnoc(Start, cmd + [' '], '"', rule);
    RunSnoc(Start, cmd, ' ', rule);
    WordRun(Start, cmd, rule);
    assert [] + cmd == cmd;
  }

  /** Quoted text up to a quote and a space. */
  lemma QuotedThenSpace(st: Lexer, w: string, rule: QuoteRule)
    requires st.Lexing? && st.quoted && NoQuote(w)
    ensures RunFrom(st, w + ['"', ' '], rule)
      == Step(Step(st.(current := st.current + w), '"', rule), ' ', rule)
  {
    assert w + ['"', ' '] == (w + ['"']) + [' '];
    RunSnoc(st, w + ['"'], ' ', rule);
    RunSnoc(st, w, '"', rule);
    QuotedRun(st, w, rule);
  }

  /** The program's tokenizer reopens the quote at its closing '"', so a
      quoted value swallows the rest of the line, spaces included. */
  lemma TokenizeQuoteAsWritten(cmd: string, w: string, v: string)
    requires Plain(cmd) && cmd != [] && NoQuote(w) && NoQuote(v)
    ensures TokenizeAsWritten(cmd + [' ', '"'] + w + ['"', ' '] + v)
      == Tokens(Some(cmd), [ParamValue(None, w + [' '] + v)])
  {
    var rule := ReopenQuote;
    var q := Lexing(Some(cmd), [], [], None, true, true);
    var r := Lexing(Some(cmd), [], w + [' '], None, true, true);
    OpenQuote(cmd, rule);
    assert RunFrom(q, w + ['"', ' '], rule) == r by {
      QuotedThenSpace(q, w, rule);
      assert [] + w == w;
    }
    QuotedRun(r, v, rule);
    assert cmd + [' ', '"'] + w + ['"', ' '] + v == ((cmd + [' ', '"']) + (w + ['"', ' '])) + v;
    RunConcat(Start, cmd + [' ', '"'], w + ['"', ' '], rule);
    RunConcat(Start, (cmd + [' ', '"']) + (w + ['"', ' ']), v, rule);
  }

  /** With the closing quote ending the quoted part, a quoted value keeps its
      spaces and the next word is a value of its own. */
  lemma TokenizeQuote(cmd: string, w: string, v: string)
    requires Plain(cmd) && cmd != [] && NoQuote(w) && Plain(v) && v != []
    ensures Tokenize(cmd + [' ', '"'] + w + ['"', ' '] + v, CloseQuote)
      == Tokens(Some(cmd), [ParamValue(None, w), ParamValue(None, v)])
  {
    assert cmd + [' ', '"'] + w + ['"', ' '] + v == ((cmd + [' ', '"']) + (w + ['"', ' '])) + v;
    RunQuoted(cmd, w, v);
  }

  /** The state after a closed quoted value and a word: the quoted value is
      complete and the word is the pending token. */
  lemma RunQuoted(cmd: string, w: string, v: string)
    requires Plain(cmd) && cmd != [] && NoQuote(w) && Plain(v)
    ensures RunFrom(Start, ((cmd + [' ', '"']) + (w + ['"', ' '])) + v, CloseQuote)
      == Lexing(Some(cmd), [ParamValue(None, w)], v, None, false, v != [])
  {
    var rule := CloseQuote;
    var e := Lexing(Some(cmd), [ParamValue(None, w)], [], None, false, false);
    var q := Lexing(Some(cmd), [], [], None, true, true);
    OpenQuote(cmd, rule);
    assert RunFrom(q, w + ['"', ' '], rule) == e by {
      QuotedThenSpace(q, w, rule);
      assert [] + w == w;
    }
    WordRun(e, v, rule);
    assert [] + v == v;
    RunConcat(Start, cmd + [' ', '"'], w + ['"', ' '], rule);
    RunConcat(Start, (cmd + [' ', '"']) + (w + ['"', ' ']), v, rule);
  }
}
