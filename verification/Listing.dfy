/** The text list format: what `--list` prints and how a listing is parsed. */
module Listing {
  import opened Results
  import opened Decimals

  datatype Kind = Test | Benchmark

  datatype Metadata = Metadata(ignoreMessage: Option<string>, location: Option<(string, nat, nat, nat, nat)>)

  datatype TestCase = TestCase(name: Name, kind: Kind, ignored: bool, metadata: Metadata)

  const NO_METADATA: Metadata := Metadata(None, None)

  // ---------------------------------------------------------------- printing

  function Suffix(kind: Kind): string {
    match kind
    case Test => ": test"
    case Benchmark => ": benchmark"
  }

  function Line(test: TestCase): string {
    test.name + Suffix(test.kind)
  }

  function Printed(tests: seq<TestCase>): string {
    if tests == [] then "" else Line(tests[0]) + "\n" + Printed(tests[1..])
  }

  function Count(tests: seq<TestCase>, kind: Kind): nat {
    if tests == [] then 0 else (if tests[0].kind == kind then 1 else 0) + Count(tests[1..], kind)
  }

  function Counted(n: nat, one: string, many: string): string {
    ToDecimal(n) + " " + (if n == 1 then one else many)
  }

  function SummaryLine(tests: seq<TestCase>): string {
    Counted(Count(tests, Test), "test", "tests") + ", " + Counted(Count(tests, Benchmark), "benchmark", "benchmarks")
  }

  function ListOutput(tests: seq<TestCase>, summary: bool): string {
    Printed(tests) + (if summary then "\n" + SummaryLine(tests) + "\n" else "")
  }

  lemma {:induction false} PrintedAppend(a: seq<TestCase>, b: seq<TestCase>)
    ensures Printed(a + b) == Printed(a) + Printed(b)
  {
    hide Line;
    if a == [] {
      assert a + b == b;
    } else {
      PrintedAppend(a[1..], b);
      assert (a + b)[1..] == a[1..] + b && (a + b)[0] == a[0];
      var first := Line(a[0]) + "\n";
      assert Printed(a + b) == first + (Printed(a[1..]) + Printed(b));
      assert first + (Printed(a[1..]) + Printed(b)) == (first + Printed(a[1..])) + Printed(b);
    }
  }

  /** `libtest_text_list_output`. */
  method TextListOutput(tests: seq<TestCase>, summary: bool) returns (out: string)
    ensures out == ListOutput(tests, summary)
  {
    hide Line, SummaryLine;
    out := "";
    for i := 0 to |tests|
      invariant out == Printed(tests[..i])
    {
      PrintedAppend(tests[..i], [tests[i]]);
      assert tests[..i + 1] == tests[..i] + [tests[i]];
      assert Printed([tests[i]]) == Line(tests[i]) + "\n" + Printed([]);
      out := out + (Line(tests[i]) + "\n");
    }
    assert tests[..|tests|] == tests;
    if summary {
      out := out + ("\n" + SummaryLine(tests) + "\n");
    }
  }

  // ---------------------------------------------------------------- parsing

  /** Characters with the Unicode White_Space property, which `trim_end` removes. */
  predicate IsSpace(c: char) {
    || '\U{0009}' <= c <= '\U{000D}' || c == ' ' || c == '\U{0085}' || c == '\U{00A0}' || c == '\U{1680}'
    || '\U{2000}' <= c <= '\U{200A}' || c == '\U{2028}' || c == '\U{2029}' || c == '\U{202F}' || c == '\U{205F}'
    || c == '\U{3000}'
  }

  function TrimEnd(line: string): string {
    if line != "" && IsSpace(line[|line| - 1]) then TrimEnd(line[..|line| - 1]) else line
  }

  function NewlineAt(text: string): (k: nat)
    ensures k <= |text|
    ensures '\n' !in text[..k]
    ensures k < |text| ==> text[k] == '\n'
  {
    if text == "" || text[0] == '\n' then 0
    else
      assert text[..1 + NewlineAt(text[1..])] == [text[0]] + text[1..][..NewlineAt(text[1..])];
      1 + NewlineAt(text[1..])
  }

  function WithoutCarriageReturn(line: string): string {
    if line != "" && line[|line| - 1] == '\r' then line[..|line| - 1] else line
  }

  /** The standard library's `lines`: a final line end does not open another line. */
  function Lines(text: string): seq<string>
    decreases |text|
  {
    if text == "" then []
    else
      var k := NewlineAt(text);
      if k == |text| then [text] else [WithoutCarriageReturn(text[..k])] + Lines(text[k + 1..])
  }

  function StripSuffix(line: string, suffix: string): Option<string> {
    if |suffix| <= |line| && line[|line| - |suffix|..] == suffix then Some(line[..|line| - |suffix|]) else None
  }

  function ParseLine(line: string): Option<TestCase> {
    var trimmed := TrimEnd(line);
    var test := StripSuffix(trimmed, Suffix(Test));
    var benchmark := StripSuffix(trimmed, Suffix(Benchmark));
    if test.Some? then
      if test.value == "" then None else Some(TestCase(test.value, Test, false, NO_METADATA))
    else if benchmark.Some? then
      if benchmark.value == "" then None else Some(TestCase(benchmark.value, Benchmark, false, NO_METADATA))
    else None
  }

  function ParseLines(lines: seq<string>): seq<TestCase> {
    if lines == [] then []
    else (if ParseLine(lines[0]).Some? then [ParseLine(lines[0]).value] else []) + ParseLines(lines[1..])
  }

  /** `parse_text`. */
  function ParseText(text: string): seq<TestCase> {
    ParseLines(Lines(text))
  }

  // ---------------------------------------------------------------- round trip

  predicate Listable(name: Name) {
    name != "" && '\n' !in name
  }

  /** What the text format keeps of a test: its name and kind. */
  function Listed(tests: seq<TestCase>): seq<TestCase> {
    if tests == [] then [] else [TestCase(tests[0].name, tests[0].kind, false, NO_METADATA)] + Listed(tests[1..])
  }

  lemma {:induction false} NewlineAfter(line: string, rest: string)
    requires '\n' !in line
    ensures NewlineAt(line + "\n" + rest) == |line|
  {
    if line == "" {
      assert (line + "\n" + rest)[0] == '\n';
    } else {
      assert line[0] in line && forall c :: c in line[1..] ==> c in line;
      NewlineAfter(line[1..], rest);
      assert (line + "\n" + rest)[1..] == line[1..] + "\n" + rest;
      assert (line + "\n" + rest)[0] == line[0];
    }
  }

  lemma {:induction false} FirstLine(line: string, rest: string)
    requires '\n' !in line
    ensures Lines(line + "\n" + rest) == [WithoutCarriageReturn(line)] + Lines(rest)
  {
    NewlineAfter(line, rest);
    var text := line + "\n" + rest;
    assert text[..|line|] == line && text[|line| + 1..] == rest;
  }

  /** Blanks at the end of a line, as a foreign program may leave them, do not matter. */
  lemma {:induction false} TrailingBlanks(line: string, blank: char)
    requires blank == ' ' || blank == '\t' || blank == '\r'
    ensures ParseLine(line + [blank]) == ParseLine(line)
  {
    assert (line + [blank])[..|line|] == line;
    assert TrimEnd(line + [blank]) == TrimEnd(line);
  }

  lemma {:induction false} LineText(test: TestCase)
    ensures Line(test) == test.name + (if test.kind == Benchmark then ": benchmark" else ": test")
  {
  }

  /** The summary counts every test once. */
  lemma {:induction false} CountsAddUp(tests: seq<TestCase>)
    ensures Count(tests, Test) + Count(tests, Benchmark) == |tests|
    ensures Count(tests, Test) == |tests| <==> forall t :: t in tests ==> t.kind == Test
  {
    if tests != [] {
      CountsAddUp(tests[1..]);
      assert tests == [tests[0]] + tests[1..];
    }
  }

  /** A printed line, whatever its name contains besides a newline, parses to its own test. */
  lemma {:induction false} LineRoundTrip(test: TestCase)
    requires Listable(test.name)
    ensures '\n' !in Line(test)
    ensures ParseLine(WithoutCarriageReturn(Line(test))) == Some(TestCase(test.name, test.kind, false, NO_METADATA))
  {
    var line := Line(test);
    var suffix := Suffix(test.kind);
    assert line[|line| - 1] == suffix[|suffix| - 1];
    assert line[|line| - |suffix|..] == suffix && line[..|line| - |suffix|] == test.name;
    if test.kind == Benchmark {
      assert line[|line| - 1] == 'k' && ": test"[5] == 't';
      assert |line| >= 6 ==> line[|line| - 6..][5] == 'k';
    }
  }

  lemma {:induction false} PrintedRoundTrip(tests: seq<TestCase>, rest: string)
    requires forall t :: t in tests ==> Listable(t.name)
    ensures ParseText(Printed(tests) + rest) == Listed(tests) + ParseText(rest)
  {
    hide Line, ParseLine, Lines, WithoutCarriageReturn;
    if tests == [] {
      assert Printed(tests) + rest == rest;
    } else {
      var tail := Printed(tests[1..]) + rest;
      LineRoundTrip(tests[0]);
      FirstLine(Line(tests[0]), tail);
      assert Printed(tests) + rest == Line(tests[0]) + "\n" + tail;
      PrintedRoundTrip(tests[1..], rest);
      assert Lines(Printed(tests) + rest)[1..] == Lines(tail);
    }
  }

  /** Neither the blank line nor the summary line is taken for a test. */
  lemma {:induction false} SummaryIsIgnored(tests: seq<TestCase>)
    ensures ParseText("\n" + SummaryLine(tests) + "\n") == []
  {
    hide ParseLine, Lines, WithoutCarriageReturn, SummaryLine;
    var summary := SummaryLine(tests);
    SummaryLineIs(tests);
    FirstLine("", summary + "\n");
    assert "" + "\n" + (summary + "\n") == "\n" + summary + "\n";
    FirstLine(summary, "");
    assert summary + "\n" + "" == summary + "\n";
    BlankLine();
    assert Lines("\n" + summary + "\n") == [WithoutCarriageReturn(""), WithoutCarriageReturn(summary)];
    NothingInTwo(WithoutCarriageReturn(""), WithoutCarriageReturn(summary));
  }

  lemma {:induction false} NothingInTwo(first: string, second: string)
    requires ParseLine(first).None? && ParseLine(second).None?
    ensures ParseLines([first, second]) == []
  {
    hide ParseLine;
    assert [first, second][1..] == [second] && [second][1..] == [];
    assert ParseLines([second]) == [];
  }

  lemma {:induction false} BlankLine()
    ensures ParseLine(WithoutCarriageReturn("")).None? && Lines("") == []
  {
  }

  lemma {:induction false} SummaryLineIs(tests: seq<TestCase>)
    ensures '\n' !in SummaryLine(tests)
    ensures ParseLine(WithoutCarriageReturn(SummaryLine(tests))).None?
  {
    hide Count, ToDecimal, ParseLine, WithoutCarriageReturn;
    var t, b := Count(tests, Test), Count(tests, Benchmark);
    var word := if b == 1 then "benchmark" else "benchmarks";
    var before := Counted(t, "test", "tests") + ", " + ToDecimal(b);
    assert SummaryLine(tests) == before + " " + word;
    if b == 1 {
      NotABenchmark(before);
    } else {
      NotATest(before + " benchmark");
      assert before + " " + word == before + " benchmark" + "s";
    }
  }

  lemma {:induction false} NotABenchmark(before: string)
    requires before != "" && IsDigit(before[|before| - 1])
    ensures ParseLine(WithoutCarriageReturn(before + " " + "benchmark")).None?
  {
    var line := before + " " + "benchmark";
    assert line[|line| - 1] == 'k' && TrimEnd(WithoutCarriageReturn(line)) == line;
    assert line[|line| - 11..][0] == before[|before| - 1] && ": benchmark"[0] == ':';
    assert line[|line| - 6..][5] == 'k' && ": test"[5] == 't';
  }

  lemma {:induction false} NotATest(before: string)
    ensures ParseLine(WithoutCarriageReturn(before + "s")).None?
  {
    var line := before + "s";
    assert line[|line| - 1] == 's' && TrimEnd(WithoutCarriageReturn(line)) == line;
    assert |line| >= 11 ==> line[|line| - 11..][10] == 's';
    assert |line| >= 6 ==> line[|line| - 6..][5] == 's';
    assert ": benchmark"[10] == 'k' && ": test"[5] == 't';
  }

  lemma {:induction false} LinesHaveNoNewline(text: string)
    ensures forall line :: line in Lines(text) ==> '\n' !in line
    decreases |text|
  {
    hide NewlineAt;
    var k := NewlineAt(text);
    if text != "" && k < |text| {
      var first, rest := WithoutCarriageReturn(text[..k]), Lines(text[k + 1..]);
      assert first <= text[..k];
      LinesHaveNoNewline(text[k + 1..]);
      assert Lines(text) == [first] + rest;
    } else if text != "" {
      assert text[..k] == text && Lines(text) == [text];
    }
  }

  lemma {:induction false} TrimmedIsPrefix(line: string)
    ensures TrimEnd(line) <= line
  {
    if line != "" && IsSpace(line[|line| - 1]) {
      TrimmedIsPrefix(line[..|line| - 1]);
    }
  }

  lemma {:induction false} ParsedIsListable(lines: seq<string>)
    requires forall line :: line in lines ==> '\n' !in line
    ensures forall t :: t in ParseLines(lines) ==> Listable(t.name)
  {
    if lines != [] {
      assert lines[0] in lines && forall line :: line in lines[1..] ==> line in lines;
      ParsedIsListable(lines[1..]);
      TrimmedIsPrefix(lines[0]);
      var parsed := ParseLine(lines[0]);
      if parsed.Some? {
        assert parsed.value.name <= lines[0];
        assert forall c :: c in parsed.value.name ==> c in lines[0];
      }
    }
  }

  lemma {:induction false} ListedNames(tests: seq<TestCase>, i: nat)
    requires i < |tests|
    ensures exists t :: t in Listed(tests) && t.name == tests[i].name
  {
    if i == 0 {
      assert Listed(tests)[0] in Listed(tests);
    } else {
      ListedNames(tests[1..], i - 1);
    }
  }

  /** The printed listing parses back exactly when every name is non-empty and has no newline. */
  lemma {:induction false} ListingRoundTripIff(tests: seq<TestCase>, summary: bool)
    ensures ParseText(ListOutput(tests, summary)) == Listed(tests) <==> forall t :: t in tests ==> Listable(t.name)
  {
    hide ListOutput, Lines, ParseLines, Listed;
    if forall t :: t in tests ==> Listable(t.name) {
      ListingRoundTrip(tests, summary);
    }
    LinesHaveNoNewline(ListOutput(tests, summary));
    ParsedIsListable(Lines(ListOutput(tests, summary)));
    if ParseText(ListOutput(tests, summary)) == Listed(tests) {
      forall t | t in tests
        ensures Listable(t.name)
      {
        var i :| 0 <= i < |tests| && tests[i] == t;
        ListedNames(tests, i);
      }
    }
  }

  /** With or without the summary, names and kinds come back in order. */
  lemma {:induction false} ListingRoundTrip(tests: seq<TestCase>, summary: bool)
    requires forall t :: t in tests ==> Listable(t.name)
    ensures ParseText(ListOutput(tests, summary)) == Listed(tests)
  {
    hide Line, ParseLine, Lines, SummaryLine, Printed;
    if summary {
      PrintedRoundTrip(tests, "\n" + SummaryLine(tests) + "\n");
      SummaryIsIgnored(tests);
    } else {
      PrintedRoundTrip(tests, "");
      BlankLine();
    }
  }

  lemma {:induction false} OnePrinted(test: TestCase)
    ensures Printed([test]) == Line(test) + "\n"
  {
    assert [test][1..] == [] && Printed([]) == "";
  }

  /** For one: of a test whose name spans two lines only the second line is listed. */
  lemma {:induction false} NewlineNameIsCut()
    ensures ParseText(ListOutput([TestCase("a\nb", Test, false, NO_METADATA)], false))
            == [TestCase("b", Test, false, NO_METADATA)]
  {
    var whole, second := TestCase("a\nb", Test, false, NO_METADATA), TestCase("b", Test, false, NO_METADATA);
    var rest := Printed([second]);
    OnePrinted(second);
    OnePrinted(whole);
    assert "a\nb" == "a" + "\n" + "b";
    assert ListOutput([whole], false) == "a" + "\n" + rest;
    FirstLine("a", rest);
    ShortLine();
    hide Printed, Lines, ParseLine;
    PrintedRoundTrip([second], "");
    assert rest + "" == rest;
    BlankLine();
    assert ParseText("") == [] && Listed([second]) == [second];
    var lines := Lines(ListOutput([whole], false));
    assert lines[0] == WithoutCarriageReturn("a") && lines[1..] == Lines(rest);
  }

  lemma {:induction false} ShortLine()
    ensures WithoutCarriageReturn("a") == "a" && ParseLine("a").None?
  {
    assert |": test"| == 6 && |": benchmark"| == 11;
  }
}
