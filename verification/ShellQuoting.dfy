/** Arguments in the supervisor script, and the shell's own reading of them. */
module ShellQuoting {
  import opened Results

  // ---------------------------------------------------------------- what the runner writes

  const QUOTED_QUOTE: string := "'\"'\"'"

  function Replaced(value: string): string {
    if value == "" then ""
    else (if value[0] == '\'' then QUOTED_QUOTE else [value[0]]) + Replaced(value[1..])
  }

  /** `shell_quote`. */
  function ShellQuote(value: string): string {
    "'" + Replaced(value) + "'"
  }

  function ArgumentText(arguments: seq<string>): string {
    if arguments == [] then ""
    else ArgumentText(arguments[..|arguments| - 1]) + " " + ShellQuote(arguments[|arguments| - 1])
  }

  method AppendArguments(before: string, arguments: seq<string>) returns (script: string)
    ensures script == before + ArgumentText(arguments)
  {
    script := before;
    for i := 0 to |arguments|
      invariant script == before + ArgumentText(arguments[..i])
    {
      assert arguments[..i + 1][..i] == arguments[..i];
      script := script + " ";
      script := script + ShellQuote(arguments[i]);
    }
    assert arguments[..|arguments|] == arguments;
  }

  // ---------------------------------------------------------------- what the shell reads

  /**
   * Token recognition (section 2.3) with quote removal (section 2.6.7) of the POSIX.1-2017 Shell
   * Command Language, for the words of one simple command. `current` is the word being read.
   */
  datatype Lexer = Lexer(words: seq<string>, current: Option<string>, quote: Quote) {
    function Add(c: char): Lexer {
      this.(current := Some(this.Text() + [c]))
    }

    function Text(): string {
      if current.Some? then current.value else ""
    }

    function Delimited(): Lexer {
      if current.Some? then Lexer(words + [current.value], None, quote) else this
    }
  }

  datatype Quote = Unquoted | SingleQuoted | DoubleQuoted | Escaped

  /** Outside quotes these start an operator, an expansion, a pattern or a comment. */
  predicate Special(c: char) {
    c in "|&;<>()$`*?[#~=%\n"
  }

  /** One character; None where this fragment of the language ends. */
  function Step(lexer: Lexer, c: char): Option<Lexer> {
    match lexer.quote
    case Unquoted =>
      if c == ' ' || c == '\t' then Some(lexer.Delimited())
      else if c == '\'' then Some(lexer.(quote := SingleQuoted, current := Some(lexer.Text())))
      else if c == '"' then Some(lexer.(quote := DoubleQuoted, current := Some(lexer.Text())))
      else if c == '\\' then Some(lexer.(quote := Escaped))
      else if Special(c) then None
      else Some(lexer.Add(c))
    case Escaped =>
      if c == '\n' then Some(lexer.(quote := Unquoted)) else Some(lexer.Add(c).(quote := Unquoted))
    case SingleQuoted =>
      // Section 2.2.2: every character is literal up to the next single-quote.
      if c == '\'' then Some(lexer.(quote := Unquoted)) else Some(lexer.Add(c))
    case DoubleQuoted =>
      // Section 2.2.3: every character is literal except `$`, backquote and backslash.
      if c == '"' then Some(lexer.(quote := Unquoted))
      else if c == '$' || c == '`' || c == '\\' then None
      else Some(lexer.Add(c))
  }

  function Scan(lexer: Lexer, text: string): Option<Lexer>
    decreases text
  {
    if text == "" then Some(lexer)
    else
      var next := Step(lexer, text[0]);
      if next.None? then None else Scan(next.value, text[1..])
  }

  /** Section 2.2.1: a backslash keeps the next character literal, and with a newline it vanishes. */
  lemma {:induction false} BackslashScans(lexer: Lexer, c: char)
    requires lexer.quote == Unquoted
    ensures Scan(lexer, ['\\', c]) == Some(if c == '\n' then lexer else lexer.Add(c))
  {
    var escaped := lexer.(quote := Escaped);
    assert Step(lexer, '\\') == Some(escaped);
    assert ['\\', c] == ['\\'] + [c];
    ScanOne(lexer, '\\');
    ScanAppend(lexer, ['\\'], [c]);
    ScanOne(escaped, c);
  }

  /** The words of a text; None if a quote is left open or the fragment is left. */
  function Words(text: string): Option<seq<string>> {
    var end := Scan(Lexer([], None, Unquoted), text);
    if end.None? || end.value.quote != Unquoted then None else Some(end.value.Delimited().words)
  }

  lemma {:induction false} ScanAppend(lexer: Lexer, a: string, b: string)
    ensures Scan(lexer, a + b) == if Scan(lexer, a).None? then None else Scan(Scan(lexer, a).value, b)
    decreases a
  {
    hide Step;
    if a == "" {
      assert a + b == b;
    } else {
      assert (a + b)[1..] == a[1..] + b;
      var next := Step(lexer, a[0]);
      if next.Some? {
        ScanAppend(next.value, a[1..], b);
      }
    }
  }

  lemma {:induction false} ScanOne(lexer: Lexer, c: char)
    ensures Scan(lexer, [c]) == Step(lexer, c)
  {
    hide Step;
    if Step(lexer, c).Some? {
      assert [c][1..] == "";
      assert Scan(Step(lexer, c).value, "") == Step(lexer, c);
    }
  }

  // ---------------------------------------------------------------- round trip

  /** Closing, quoting a single-quote, and opening again adds just that character. */
  lemma {:induction false} QuotedQuoteScans(lexer: Lexer)
    requires lexer.quote == SingleQuoted && lexer.current.Some?
    ensures Scan(lexer, QUOTED_QUOTE) == Some(lexer.Add('\''))
  {
    hide Scan;
    var closed := lexer.(quote := Unquoted);
    var double := lexer.(quote := DoubleQuoted);
    var added := double.Add('\'');
    assert QUOTED_QUOTE == ['\''] + (['"'] + (['\''] + (['"'] + ['\''])));
    ScanAppend(lexer, ['\''], ['"'] + (['\''] + (['"'] + ['\''])));
    ScanOne(lexer, '\'');
    ScanAppend(closed, ['"'], ['\''] + (['"'] + ['\'']));
    ScanOne(closed, '"');
    ScanAppend(double, ['\''], ['"'] + ['\'']);
    ScanOne(double, '\'');
    ScanAppend(added, ['"'], ['\'']);
    ScanOne(added, '"');
    ScanOne(added.(quote := Unquoted), '\'');
  }

  lemma {:induction false} ReplacedScans(lexer: Lexer, value: string)
    requires lexer.quote == SingleQuoted && lexer.current.Some?
    ensures Scan(lexer, Replaced(value)) == Some(lexer.(current := Some(lexer.current.value + value)))
    decreases value
  {
    hide Scan;
    if value == "" {
      ScanAppend(lexer, "", "");
      ScanNothing(lexer);
      assert lexer.current.value + "" == lexer.current.value;
    } else {
      var first := if value[0] == '\'' then QUOTED_QUOTE else [value[0]];
      if value[0] == '\'' {
        QuotedQuoteScans(lexer);
      } else {
        ScanOne(lexer, value[0]);
      }
      var next := lexer.Add(value[0]);
      ReplacedScans(next, value[1..]);
      ScanAppend(lexer, first, Replaced(value[1..]));
      assert lexer.current.value + value == (lexer.current.value + [value[0]]) + value[1..];
    }
  }

  lemma {:induction false} ScanNothing(lexer: Lexer)
    ensures Scan(lexer, "") == Some(lexer)
  {
  }

  /** Whatever the value, its quoted form adds exactly the value to the current word. */
  lemma {:induction false} QuoteScans(lexer: Lexer, value: string)
    requires lexer.quote == Unquoted
    ensures Scan(lexer, ShellQuote(value)) == Some(lexer.(current := Some(lexer.Text() + value)))
  {
    hide Scan, Replaced;
    var inside := lexer.(quote := SingleQuoted, current := Some(lexer.Text()));
    var filled := inside.(current := Some(lexer.Text() + value));
    assert ShellQuote(value) == ['\''] + (Replaced(value) + ['\'']);
    ScanAppend(lexer, ['\''], Replaced(value) + ['\'']);
    ScanOne(lexer, '\'');
    ScanAppend(inside, Replaced(value), ['\'']);
    ReplacedScans(inside, value);
    ScanOne(filled, '\'');
  }

  /** After any finished word, the arguments are read as exactly these words. */
  lemma {:induction false} ArgumentsScan(lexer: Lexer, arguments: seq<string>)
    requires lexer.quote == Unquoted
    ensures Scan(lexer, ArgumentText(arguments))
            == Some(if arguments == [] then lexer
                    else
                      var last := |arguments| - 1;
                      Lexer(lexer.Delimited().words + arguments[..last], Some(arguments[last]), Unquoted))
  {
    hide Scan, ShellQuote;
    if arguments == [] {
      ScanNothing(lexer);
    } else {
      var rest, last := arguments[..|arguments| - 1], arguments[|arguments| - 1];
      ArgumentsScan(lexer, rest);
      var before := Scan(lexer, ArgumentText(rest)).value;
      var delimited := before.Delimited();
      if rest != [] {
        assert rest == rest[..|rest| - 1] + [rest[|rest| - 1]];
        assert delimited.words == lexer.Delimited().words + rest;
      } else {
        assert lexer.Delimited().words + rest == lexer.Delimited().words;
      }
      assert ArgumentText(arguments) == ArgumentText(rest) + ([' '] + ShellQuote(last));
      ScanAppend(lexer, ArgumentText(rest), [' '] + ShellQuote(last));
      ScanAppend(before, [' '], ShellQuote(last));
      ScanOne(before, ' ');
      QuoteScans(delimited, last);
      assert "" + last == last;
    }
  }

  /** For every list of arguments the shell reads back exactly that list. */
  lemma {:induction false} ArgumentsRoundTrip(arguments: seq<string>)
    ensures Words(ArgumentText(arguments)) == Some(arguments)
  {
    hide Scan, ArgumentText;
    ArgumentsScan(Lexer([], None, Unquoted), arguments);
    if arguments != [] {
      assert [] + arguments[..|arguments| - 1] == arguments[..|arguments| - 1];
      assert arguments == arguments[..|arguments| - 1] + [arguments[|arguments| - 1]];
    }
  }

  /** Inside the script: the words before the arguments stay, and a blank after them ends the last one. */
  lemma {:induction false} ArgumentsInScript(lexer: Lexer, arguments: seq<string>)
    requires lexer.quote == Unquoted && lexer.current.Some?
    ensures Scan(lexer, ArgumentText(arguments) + " ")
            == Some(Lexer(lexer.words + [lexer.current.value] + arguments, None, Unquoted))
  {
    hide Scan, ArgumentText;
    ArgumentsScan(lexer, arguments);
    var end := Scan(lexer, ArgumentText(arguments)).value;
    ScanAppend(lexer, ArgumentText(arguments), " ");
    ScanOne(end, ' ');
    if arguments != [] {
      assert arguments == arguments[..|arguments| - 1] + [arguments[|arguments| - 1]];
    }
    assert end.Delimited().words == lexer.words + [lexer.current.value] + arguments;
  }

  // ---------------------------------------------------------------- the command in the script

  /** What the script puts after the arguments of a command. */
  const COMMAND_END: string := " || overall_status=$?\n"

  /** Outside quotes these start a control operator, which ends a simple command (section 2.9.1). */
  predicate StartsOperator(c: char) {
    c in "|&;\n"
  }

  /** The words up to the operator that ends the simple command, or to the end of the text. */
  function CommandWords(lexer: Lexer, text: string): Option<seq<string>>
    decreases text
  {
    if text == "" then (if lexer.quote == Unquoted then Some(lexer.Delimited().words) else None)
    else if lexer.quote == Unquoted && StartsOperator(text[0]) then Some(lexer.Delimited().words)
    else
      var next := Step(lexer, text[0]);
      if next.None? then None else CommandWords(next.value, text[1..])
  }

  lemma {:induction false} OperatorIsSpecial(lexer: Lexer, c: char)
    ensures lexer.quote == Unquoted && StartsOperator(c) ==> Step(lexer, c).None?
  {
  }

  lemma {:induction false} CommandAfter(lexer: Lexer, a: string, b: string)
    requires Scan(lexer, a).Some?
    ensures CommandWords(lexer, a + b) == CommandWords(Scan(lexer, a).value, b)
    decreases a
  {
    if a == "" {
      assert a + b == b;
    } else {
      OperatorIsSpecial(lexer, a[0]);
      hide Step, StartsOperator;
      assert (a + b)[1..] == a[1..] + b && (a + b)[0] == a[0];
      CommandAfter(Step(lexer, a[0]).value, a[1..], b);
    }
  }

  /** Without an operator after them the words are those of the whole text. */
  lemma {:induction false} CommandToEnd(text: string)
    requires Scan(Lexer([], None, Unquoted), text).Some?
    ensures CommandWords(Lexer([], None, Unquoted), text) == Words(text)
  {
    CommandAfter(Lexer([], None, Unquoted), text, "");
    assert text + "" == text;
  }

  /** In the script as it is written, the command gets exactly the arguments after its own words. */
  lemma {:induction false} CommandGetsArguments(lexer: Lexer, arguments: seq<string>)
    requires lexer.quote == Unquoted && lexer.current.Some?
    ensures CommandWords(lexer, ArgumentText(arguments) + COMMAND_END)
            == Some(lexer.words + [lexer.current.value] + arguments)
  {
    hide Scan, ArgumentText;
    var rest := COMMAND_END[1..];
    assert ArgumentText(arguments) + COMMAND_END == (ArgumentText(arguments) + " ") + rest;
    ArgumentsInScript(lexer, arguments);
    CommandAfter(lexer, ArgumentText(arguments) + " ", rest);
    assert rest[0] == '|';
  }
}
