/** The template compiler: a template is read line by line and turned into
    a Python program that writes the expanded text to `__outfile__`.
    Lines between `[[[` and `]]]` are code copied as they stand, a
    `[[statement]]` line is one line of code that may open a block, and
    every other line becomes one `__outfile__.write(...)` call in which
    each `{{expression}}` is a `%s` filled with the expression's value. */
module EasyTemplate {
  import opened Wrappers
  import opened TemplateScan
  import opened TemplateFormat

  // ---------------------------------------------------------------------
  // Lines

  predicate IsBreak(c: char)
  {
    c == '\n' || c == '\r'
  }

  /** The end of the line starting at `i`, just past its line break
      (`\n`, `\r` or `\r\n`), or the end of the text. */
  function LineEnd(s: string, i: nat): (r: nat)
    requires i <= |s|
    ensures i < |s| ==> i < r
    ensures i <= r <= |s|
    ensures forall j :: i <= j < r ==> BreakEnds(s, j, r)
    ensures r < |s| ==> i < r && IsBreak(s[r - 1])
    decreases |s| - i
  {
    if i == |s| then |s|
    else if s[i] == '\n' then i + 1
    else if s[i] == '\r' then (if i + 1 < |s| && s[i + 1] == '\n' then i + 2 else i + 1)
    else LineEnd(s, i + 1)
  }

  /** A line break at `j` ends the line that ends at `r`: it is the last
      character, or the `\r` of a closing `\r\n`. */
  predicate BreakEnds(s: string, j: nat, r: nat)
    requires j < r <= |s|
  {
    IsBreak(s[j]) ==> j == r - 1 || (j == r - 2 && s[j] == '\r' && s[j + 1] == '\n')
  }

  /** The lines from `i` on, each with its line break. */
  function LinesFrom(s: string, i: nat): seq<string>
    requires i <= |s|
    decreases |s| - i
  {
    if i == |s| then [] else [s[i..LineEnd(s, i)]] + LinesFrom(s, LineEnd(s, i))
  }

  /** `template.splitlines(1)`: the lines, line ends kept. */
  function SplitLines(s: string): seq<string>
  {
    LinesFrom(s, 0)
  }

  function Concat(lines: seq<string>): string
    decreases |lines|
  {
    if lines == [] then [] else lines[0] + Concat(lines[1..])
  }

  /** One line: not empty, and a line break only at its end. */
  predicate OneLine(l: string)
  {
    l != [] && forall j :: 0 <= j < |l| ==> BreakAtEnd(l, j)
  }

  /** A line break at `j` is the line's own: the last character, or the
      `\r` of a closing `\r\n`. */
  predicate BreakAtEnd(l: string, j: nat)
    requires j < |l|
  {
    IsBreak(l[j]) ==> j == |l| - 1 || (j == |l| - 2 && l[j] == '\r' && l[j + 1] == '\n')
  }

  /** Joined back together, the lines are the text. */
  lemma {:induction false} LinesConcat(s: string, i: nat)
    requires i <= |s|
    ensures Concat(LinesFrom(s, i)) == s[i..]
    decreases |s| - i
  {
    if i < |s| {
      var e := LineEnd(s, i);
      LinesConcat(s, e);
      var ls := LinesFrom(s, i);
      assert ls[1..] == LinesFrom(s, e);
      assert s[i..] == s[i..e] + s[e..];
    }
  }

  /** Every piece `splitlines` gives is one line, and every one but the
      last ends with its line break. */
  lemma {:induction false} LinesAreLines(s: string, i: nat)
    requires i <= |s|
    ensures forall k :: 0 <= k < |LinesFrom(s, i)| ==> OneLine(LinesFrom(s, i)[k])
    ensures forall k :: 0 <= k < |LinesFrom(s, i)| - 1 ==> LinesFrom(s, i)[k] != [] && IsBreak(LinesFrom(s, i)[k][|LinesFrom(s, i)[k]| - 1])
    decreases |s| - i
  {
    if i < |s| {
      var e := LineEnd(s, i);
      LinesAreLines(s, e);
      var ls := LinesFrom(s, i);
      var l := s[i..e];
      assert ls == [l] + LinesFrom(s, e);
      LineIsOneLine(s, i);
      if e < |s| {
        assert LinesFrom(s, e) != [];
      }
    }
  }

  /** The text up to `LineEnd` is one line. */
  lemma LineIsOneLine(s: string, i: nat)
    requires i < |s|
    ensures OneLine(s[i..LineEnd(s, i)])
  {
    var e := LineEnd(s, i);
    var l := s[i..e];
    forall j | 0 <= j < |l|
      ensures BreakAtEnd(l, j)
    {
      assert BreakEnds(s, i + j, e);
      assert l[j] == s[i + j];
      if j + 1 < |l| {
        assert l[j + 1] == s[i + j + 1];
      }
    }
  }

  lemma SplitLinesConcat(s: string)
    ensures Concat(SplitLines(s)) == s
    ensures forall k :: 0 <= k < |SplitLines(s)| ==> OneLine(SplitLines(s)[k])
  {
    LinesConcat(s, 0);
    LinesAreLines(s, 0);
  }

  // ---------------------------------------------------------------------
  // Classifying a line

  /** `^\[\[\[$`: `$` matches at the end or before a final line feed. */
  predicate IsBegin(l: string)
  {
    l == "[[[" || l == "[[[\n"
  }

  predicate IsEnd(l: string)
  {
    l == "]]]" || l == "]]]\n"
  }

  /** The line without a final line feed. */
  function Core(l: string): (r: string)
    ensures r == l || r + "\n" == l
  {
    if l != [] && l[|l| - 1] == '\n' then l[..|l| - 1] else l
  }

  /** `^\[\[(.*?)\]\]$`: the statement of a `[[...]]` line, which may not
      hold a line feed. */
  function StatementOf(l: string): (r: Option<string>)
    ensures r.Some? ==> "[[" + r.value + "]]" == Core(l) && '\n' !in r.value
  {
    var c := Core(l);
    if |c| >= 4 && c[..2] == "[[" && c[|c| - 2..] == "]]" && '\n' !in c[2..|c| - 2] then
      assert c == c[..2] + c[2..|c| - 2] + c[|c| - 2..];
      Some(c[2..|c| - 2])
    else None
  }

  /** Any statement without a line feed, written as a `[[...]]` line, is
      read back. */
  lemma StatementRoundTrip(stmt: string, lf: bool)
    requires '\n' !in stmt
    ensures StatementOf("[[" + stmt + "]]" + (if lf then "\n" else "")) == Some(stmt)
  {
    var l := "[[" + stmt + "]]" + (if lf then "\n" else "");
    var c := "[[" + stmt + "]]";
    assert Core(l) == c by {
      if lf {
        assert l[..|l| - 1] == c;
      }
    }
    assert c[2..|c| - 2] == stmt;
  }

  /** `\s` and `str.isspace` on a byte string. */
  predicate IsSpace(c: char)
  {
    c == ' ' || c == '\t' || c == '\n' || c == '\r' || c as int == 11 || c as int == 12
  }

  /** `\s*` matched at the start: the whitespace the statement begins
      with, all of it. */
  function LeadingSpace(s: string): (r: string)
    ensures |r| <= |s| && r == s[..|r|]
    ensures forall i :: 0 <= i < |r| ==> IsSpace(r[i])
    ensures |r| < |s| ==> !IsSpace(s[|r|])
    decreases |s|
  {
    if s != [] && IsSpace(s[0]) then [s[0]] + LeadingSpace(s[1..]) else []
  }

  /** `str.rstrip()`: the string without its trailing whitespace. */
  function RStrip(s: string): (r: string)
    ensures |r| <= |s| && r == s[..|r|]
    ensures r == [] || !IsSpace(r[|r| - 1])
    ensures forall i :: |r| <= i < |s| ==> IsSpace(s[i])
    decreases |s|
  {
    if s != [] && IsSpace(s[|s| - 1]) then RStrip(s[..|s| - 1]) else s
  }

  /** The statement ends with `:` once trailing whitespace is dropped, so
      the text after it is a block. */
  predicate OpensBlock(stmt: string)
  {
    var t := RStrip(stmt);
    t != [] && t[|t| - 1] == ':'
  }

  /** The indent of the text lines after a statement. */
  function IndentAfter(stmt: string): string
  {
    LeadingSpace(stmt) + (if OpensBlock(stmt) then "  " else "")
  }

  // ---------------------------------------------------------------------
  // The line ending of a text line

  /** The run of backslashes, quotes, carriage returns and line feeds the
      line ends with. */
  function EndingOf(l: string): (r: string)
    ensures |r| <= |l| && r == l[|l| - |r|..] && AllEndChars(r)
    decreases |l|
  {
    if l != [] && EndChar(l[|l| - 1]) then EndingOf(l[..|l| - 1]) + [l[|l| - 1]] else []
  }

  /** The line without its ending. */
  function BodyOf(l: string): string
  {
    l[..|l| - |EndingOf(l)|]
  }

  /** A line is its body then its ending, and the body does not end with a
      character the ending takes, so a raw literal holding it is not cut
      short by a backslash or a quote. */
  lemma {:induction false} BodyEnding(l: string)
    ensures BodyOf(l) + EndingOf(l) == l
    ensures BodyOf(l) == [] || !EndChar(BodyOf(l)[|BodyOf(l)| - 1])
    decreases |l|
  {
    if l != [] && EndChar(l[|l| - 1]) {
      var init := l[..|l| - 1];
      BodyEnding(init);
      assert EndingOf(l) == EndingOf(init) + [l[|l| - 1]];
      assert BodyOf(l) == BodyOf(init);
    }
  }

  /** The body of a line has no line feed. */
  lemma BodyNoBreak(l: string)
    requires OneLine(l)
    ensures '\n' !in BodyOf(l)
  {
    var b := BodyOf(l);
    BodyEnding(l);
    if EndChar(l[|l| - 1]) {
      assert EndingOf(l) == EndingOf(l[..|l| - 1]) + [l[|l| - 1]];
      assert |b| < |l|;
    }
    forall j | 0 <= j < |b|
      ensures b[j] != '\n'
    {
      assert b[j] == l[j];
      assert BreakAtEnd(l, j);
      assert j == |l| - 1 ==> l[j] != '\n';
    }
  }

  /** Taking the last character off a body that ends with one of the
      ending's characters puts it at the front of the ending. */
  lemma EndingOfInit(body: string)
    requires body != [] && EndChar(body[|body| - 1])
    ensures EndingOf(body) == EndingOf(body[..|body| - 1]) + [body[|body| - 1]]
  {
  }

  /** One more character moved from the end of the body to the front of
      the ending. */
  lemma EndingStep(line: string, body: string, ending: string)
    requires EndingOf(line) == EndingOf(body) + ending
    requires body != [] && EndChar(body[|body| - 1])
    ensures EndingOf(line) == EndingOf(body[..|body| - 1]) + ([body[|body| - 1]] + ending)
  {
    EndingOfInit(body);
    Associative(EndingOf(body[..|body| - 1]), [body[|body| - 1]], ending);
  }

  /** Moving the last character of `body` to the front of `ending` keeps
      their concatenation. */
  lemma MoveLast(body: string, ending: string)
    requires body != []
    ensures body[..|body| - 1] + ([body[|body| - 1]] + ending) == body + ending
  {
    assert body == body[..|body| - 1] + [body[|body| - 1]];
    Associative(body[..|body| - 1], [body[|body| - 1]], ending);
  }

  /** When the body no longer ends with a character of the ending, the
      split is the line's body and ending. */
  lemma EndingDone(line: string, body: string, ending: string)
    requires body + ending == line && EndingOf(line) == EndingOf(body) + ending
    requires !(body != [] && EndChar(body[|body| - 1]))
    ensures body == BodyOf(line) && ending == EndingOf(line)
  {
    assert EndingOf(body) == [];
    assert |ending| == |EndingOf(line)|;
  }

  /** `while line and line[-1] in '\\"\n\r'`: move the characters one at
      a time from the end of the line to the front of the ending. */
  method StripEnding(line: string) returns (body: string, ending: string)
    ensures body == BodyOf(line) && ending == EndingOf(line)
  {
    body, ending := line, "";
    while body != [] && EndChar(body[|body| - 1])
      invariant body + ending == line
      invariant EndingOf(line) == EndingOf(body) + ending
      decreases |body|
    {
      EndingStep(line, body, ending);
      MoveLast(body, ending);
      ending := [body[|body| - 1]] + ending;
      body := body[..|body| - 1];
    }
    EndingDone(line, body, ending);
  }

  // ---------------------------------------------------------------------
  // Rebuilding a line with `%` doubled outside the matches

  /** One match more: the text before it doubled, the match kept. */
  lemma RebuildStep(line: string, start: nat, m: Match, acc: string)
    requires start <= |line| && MatchesFrom(line, start) != [] && m == MatchesFrom(line, start)[0]
    requires acc + RenderFrom(line, start) == RenderFrom(line, 0)
    ensures start <= m.start <= m.end <= |line| && MatchesFrom(line, start)[1..] == MatchesFrom(line, m.end)
    ensures (acc + Double(line[start..m.start]) + line[m.start..m.end]) + RenderFrom(line, m.end) == RenderFrom(line, 0)
  {
    MatchesHead(line, start, m);
    var d, k, r := Double(line[start..m.start]), line[m.start..m.end], RenderFrom(line, m.end);
    Associative(acc, d, k + r);
    Associative(acc + d, k, r);
  }

  /** No match left: the rest of the line is doubled. */
  lemma RebuildDone(line: string, start: nat, acc: string)
    requires start <= |line| && MatchesFrom(line, start) == []
    requires acc + RenderFrom(line, start) == RenderFrom(line, 0)
    ensures acc + Double(line[start..]) == RenderFrom(line, 0)
  {
    NoMatches(line, start, []);
  }

  /** The loop over the matches: the text before each is doubled, the
      match itself is kept. */
  method RebuildLine(line: string, ms: seq<Match>) returns (newLine: string)
    requires ms == Matches(line)
    ensures newLine == RenderFrom(line, 0)
  {
    newLine := "";
    var start: nat := 0;
    for k := 0 to |ms|
      invariant start <= |line| && ms[k..] == MatchesFrom(line, start)
      invariant newLine + RenderFrom(line, start) == RenderFrom(line, 0)
    {
      var m := ms[k];
      RebuildStep(line, start, m, newLine);
      assert ms[k + 1..] == ms[k..][1..];
      newLine := newLine + Double(line[start..m.start]) + line[m.start..m.end];
      start := m.end;
    }
    RebuildDone(line, start, newLine);
    newLine := newLine + Double(line[start..]);
  }

  // ---------------------------------------------------------------------
  // What a line becomes

  /** The Python written for one line. */
  datatype Out =
    | Blank
    | Verbatim(line: string)
    | Code(statement: string)
      /** `__outfile__.write(r"""literal""" % (args,) + repr(ending))`, or
          without the `%` part when the line has no expression. */
    | Write(indent: string, literal: string, args: Option<seq<string>>, ending: string)

  /** `', '.join(xs)`. */
  function Join(sep: string, xs: seq<string>): string
    decreases |xs|
  {
    if xs == [] then [] else if |xs| == 1 then xs[0] else xs[0] + sep + Join(sep, xs[1..])
  }

  function RawLiteral(lit: string): string
  {
    "r\"\"\"" + lit + "\"\"\""
  }

  function Subst(lit: string, args: Option<seq<string>>): string
  {
    match args
    case None => RawLiteral(lit)
    case Some(a) => RawLiteral(lit) + " % (" + Join(", ", a) + ",)"
  }

  /** `__outfile__.write(subst + repr(ending))` and its line feed. */
  function WriteLine(subst: string, ending: string): string
  {
    "__outfile__.write(" + subst + " + " + Repr(ending) + ")" + "\n"
  }

  /** The text of the Python written for a line. */
  function Emit(o: Out): string
  {
    match o
    case Blank => "\n"
    case Verbatim(l) => l
    case Code(stmt) => stmt + "\n"
    case Write(indent, lit, args, ending) =>
      indent + WriteLine(Subst(lit, args), ending)
  }

  /** The state carried from line to line: inside `[[[ ... ]]]` or not, and
      the indent of text lines. */
  datatype Mode = Mode(inStatements: bool, indent: string)

  /** The write call for a text line. */
  function TextWrite(indent: string, line: string): Out
  {
    var body := BodyOf(line);
    if Matches(body) != [] then
      var n := RenderFrom(body, 0);
      Write(indent, Sub(Segs(n)), Some(Exprs(Segs(n))), EndingOf(line))
    else Write(indent, body, None, EndingOf(line))
  }

  /** One line of the template: the state after it and the Python for it. */
  function Step(st: Mode, line: string): (Mode, Out)
  {
    if IsBegin(line) then (Mode(true, st.indent), Blank)
    else if IsEnd(line) then (Mode(false, st.indent), Blank)
    else if st.inStatements then (st, Verbatim(line))
    else match StatementOf(line)
      case Some(stmt) => (Mode(st.inStatements, IndentAfter(stmt)), Code(stmt))
      case None => (st, TextWrite(st.indent, line))
  }

  /** One line of the template: the state after it and the text of the
      Python for it. */
  function StepText(st: Mode, line: string): (Mode, string)
  {
    var s := Step(st, line);
    (s.0, Emit(s.1))
  }

  /** The lines compiled in turn from state `st` by `step`: the state
      after them and the Python written for them. */
  function RunWith(step: (Mode, string) -> (Mode, string), st: Mode, lines: seq<string>): (Mode, string)
    decreases |lines|
  {
    if lines == [] then (st, "")
    else
      var first := step(st, lines[0]);
      var rest := RunWith(step, first.0, lines[1..]);
      (rest.0, first.1 + rest.1)
  }

  /** The lines of a template compiled in turn from state `st`. */
  function RunLines(st: Mode, lines: seq<string>): (Mode, string)
  {
    RunWith(StepText, st, lines)
  }

  /** The state a template starts in. */
  const Start := Mode(false, "")

  /** The program for a whole template. */
  function Compile(template: string): string
  {
    RunLines(Start, SplitLines(template)).1
  }

  /** Compiling two runs of lines one after the other. */
  lemma {:induction false} RunWithConcat(step: (Mode, string) -> (Mode, string), st: Mode, a: seq<string>, b: seq<string>)
    ensures RunWith(step, st, a + b) ==
      (RunWith(step, RunWith(step, st, a).0, b).0, RunWith(step, st, a).1 + RunWith(step, RunWith(step, st, a).0, b).1)
    decreases |a|
  {
    if a == [] {
      assert a + b == b;
      assert "" + RunWith(step, st, b).1 == RunWith(step, st, b).1;
    } else {
      var first := step(st, a[0]);
      assert (a + b)[0] == a[0] && (a + b)[1..] == a[1..] + b;
      RunWithConcat(step, first.0, a[1..], b);
      var ra := RunWith(step, first.0, a[1..]);
      var rb := RunWith(step, ra.0, b);
      assert RunWith(step, st, a) == (ra.0, first.1 + ra.1);
      assert first.1 + (ra.1 + rb.1) == (first.1 + ra.1) + rb.1;
    }
  }

  lemma RunConcat(st: Mode, a: seq<string>, b: seq<string>)
    ensures RunLines(st, a + b) == (RunLines(RunLines(st, a).0, b).0, RunLines(st, a).1 + RunLines(RunLines(st, a).0, b).1)
  {
    RunWithConcat(StepText, st, a, b);
  }

  /** One more line at the end. */
  lemma RunWithSnoc(step: (Mode, string) -> (Mode, string), st: Mode, a: seq<string>, l: string)
    ensures RunWith(step, st, a + [l]) ==
      (step(RunWith(step, st, a).0, l).0, RunWith(step, st, a).1 + step(RunWith(step, st, a).0, l).1)
  {
    RunWithConcat(step, st, a, [l]);
    var mid := RunWith(step, st, a).0;
    assert [l][1..] == [];
    assert RunWith(step, mid, [l]) == (step(mid, l).0, step(mid, l).1 + "");
    assert step(mid, l).1 + "" == step(mid, l).1;
  }

  lemma RunSnoc(st: Mode, a: seq<string>, l: string)
    ensures RunLines(st, a + [l]) == (StepText(RunLines(st, a).0, l).0, RunLines(st, a).1 + StepText(RunLines(st, a).0, l).1)
  {
    RunWithSnoc(StepText, st, a, l);
  }

  /** A text line: strip its ending, double the `%` outside the
      `{{ }}` matches, and write the literal with the expressions. */
  method WriteText(indent: string, line: string) returns (text: string)
    ensures text == Emit(TextWrite(indent, line))
  {
    var body, ending := StripEnding(line);
    var ms := Matches(body);
    var substLine;
    if ms != [] {
      var newLine := RebuildLine(body, ms);
      var segs := Segs(newLine);
      substLine := Subst(Sub(segs), Some(Exprs(segs)));
    } else {
      substLine := Subst(body, None);
    }
    text := indent + WriteLine(substLine, ending);
  }

  /** The body of the loop over the lines. */
  method CompileLine(inStatements: bool, indent: string, line: string)
    returns (inStatements': bool, indent': string, text: string)
    ensures (Mode(inStatements', indent'), text) == StepText(Mode(inStatements, indent), line)
  {
    inStatements', indent' := inStatements, indent;
    if IsBegin(line) {
      inStatements' := true;
      text := "\n";
    } else if IsEnd(line) {
      inStatements' := false;
      text := "\n";
    } else if inStatements {
      text := line;
    } else {
      var m := StatementOf(line);
      if m.Some? {
        var statement := m.value;
        indent' := LeadingSpace(statement);
        if OpensBlock(statement) {
          indent' := indent' + "  ";
        }
        assert indent' == IndentAfter(statement);
        text := statement + "\n";
      } else {
        text := WriteText(indent, line);
        assert Step(Mode(inStatements, indent), line).1 == TextWrite(indent, line);
      }
    }
  }

  /** The run over the first `i + 1` lines is the run over the first `i`
      followed by line `i`. */
  lemma RunStep(lines: seq<string>, i: nat, before: (Mode, string), after: (Mode, string))
    requires i < |lines| && before == RunLines(Start, lines[..i]) && after == StepText(before.0, lines[i])
    ensures RunLines(Start, lines[..i + 1]) == (after.0, before.1 + after.1)
  {
    RunSnoc(Start, lines[..i], lines[i]);
    assert lines[..i + 1] == lines[..i] + [lines[i]];
  }

  /** Compile a template into a Python program. */
  method TemplateToPython(template: string) returns (output: string)
    ensures output == Compile(template)
  {
    var lines := SplitLines(template);
    output := "";
    var indentString := "";
    var inStatements := false;
    for i := 0 to |lines|
      invariant (Mode(inStatements, indentString), output) == RunLines(Start, lines[..i])
    {
      var text;
      ghost var before := (Mode(inStatements, indentString), output);
      inStatements, indentString, text := CompileLine(inStatements, indentString, lines[i]);
      RunStep(lines, i, before, (Mode(inStatements, indentString), text));
      output := output + text;
    }
    assert lines[..|lines|] == lines;
  }

  // ---------------------------------------------------------------------
  // What a text line writes

  /** A line compiled as text: not a delimiter, not inside `[[[ ... ]]]`,
      not a statement. */
  predicate IsTextLine(st: Mode, line: string)
  {
    !IsBegin(line) && !IsEnd(line) && !st.inStatements && StatementOf(line).None?
  }

  /** What the `write` call of a text line writes when its expressions
      evaluate to `vals`, in order, or `None` where Python raises; other
      pieces write no template text. */
  function Written(o: Out, vals: seq<string>): Option<string>
  {
    match o
    case Write(_, lit, args, ending) =>
      var text := match args case None => (if vals == [] then Some(lit) else None) case Some(_) => PyFormat(lit, vals);
      Prepend2(text, ending)
    case _ => None
  }

  /** A formatted text with the line ending after it. */
  function Prepend2(text: Option<string>, ending: string): (r: Option<string>)
    ensures r.Some? <==> text.Some?
    ensures r.Some? ==> r.value == text.value + ending
  {
    match text
    case Some(t) => Some(t + ending)
    case None => None
  }

  lemma {:induction false} ExprsDouble(segs: seq<Seg>)
    ensures Exprs(DoubleSegs(segs)) == Exprs(segs)
    decreases |segs|
  {
    if segs != [] {
      ExprsDouble(segs[1..]);
      assert DoubleSegs(segs)[1..] == DoubleSegs(segs[1..]);
    }
  }

  /** A text line keeps the indent and becomes one `write` whose format
      arguments are the line's expressions, in order; run with one value
      per expression it writes the line with each expression replaced by
      its value and the `%` signs as they were, and with any other number
      of values it raises. */
  lemma TextLineWrites(st: Mode, line: string, vals: seq<string>)
    requires OneLine(line) && IsTextLine(st, line)
    ensures Step(st, line).0 == st
    ensures var o := Step(st, line).1;
      o.Write? && o.indent == st.indent && o.ending == EndingOf(line)
    ensures var o := Step(st, line).1; var segs := Segs(BodyOf(line));
      (o.args.Some? <==> Exprs(segs) != []) && (o.args.Some? ==> o.args.value == Exprs(segs))
    ensures var segs := Segs(BodyOf(line));
      Written(Step(st, line).1, vals) == if |vals| == |Exprs(segs)| then Some(Fill(segs, vals) + EndingOf(line)) else None
  {
    var body := BodyOf(line);
    var segs := Segs(body);
    BodyNoBreak(line);
    ExprsCount(body, 0, []);
    if Matches(body) != [] {
      var n := RenderFrom(body, 0);
      assert n[0..] == n;
      assert Double([]) == [];
      Rescan(body, 0, [], n, 0);
      ExprsDouble(segs);
      FormatSegs(segs, vals);
    } else {
      NoMatches(body, 0, []);
      assert [] + body[0..] == body;
      assert segs == [Text(body)];
      assert Exprs(segs) == [];
      assert Fill(segs, []) == body + Fill([], []) == body;
      var o := Step(st, line).1;
      assert o == Write(st.indent, body, None, EndingOf(line));
    }
  }

  /** Nothing of a text line is lost: with each expression given its own
      text, braces included, the line comes back, and the literal written
      for the ending reads back as the ending. */
  lemma TextLineKept(line: string)
    ensures var segs := Segs(BodyOf(line));
      Fill(segs, Braced(Exprs(segs))) + EndingOf(line) == line
    ensures Unrepr(Repr(EndingOf(line))) == Some(EndingOf(line))
  {
    var body := BodyOf(line);
    ScanRenders(body, 0, []);
    assert [] + body[0..] == body;
    FillBraced(Segs(body));
    BodyEnding(line);
    ReprRoundTrip(EndingOf(line));
  }

  // ---------------------------------------------------------------------
  // Statements

  /** Between `[[[` and `]]]` every line is copied as it stands. */
  lemma {:induction false} VerbatimLines(indent: string, code: seq<string>)
    requires forall k :: 0 <= k < |code| ==> !IsBegin(code[k]) && !IsEnd(code[k])
    ensures RunLines(Mode(true, indent), code) == (Mode(true, indent), Concat(code))
    decreases |code|
  {
    if code != [] {
      VerbatimLines(indent, code[1..]);
    }
  }

  /** A `[[[ ... ]]]` block compiles to its lines, with one empty line for
      each delimiter so that line numbers still match, and leaves the
      indent as it was. */
  lemma StatementBlock(st: Mode, begin: string, code: seq<string>, end: string)
    requires IsBegin(begin) && IsEnd(end)
    requires forall k :: 0 <= k < |code| ==> !IsBegin(code[k]) && !IsEnd(code[k])
    ensures RunLines(st, [begin] + code + [end]) == (Mode(false, st.indent), "\n" + Concat(code) + "\n")
  {
    var inside := Mode(true, st.indent);
    DelimiterLine(st, begin);
    VerbatimLines(st.indent, code);
    RunConcat(st, [begin], code);
    var r2 := RunLines(st, [begin] + code);
    assert r2 == (inside, "\n" + Concat(code));
    DelimiterLine(inside, end);
    RunConcat(st, [begin] + code, [end]);
  }

  /** A delimiter line is an empty line of code. */
  lemma DelimiterLine(st: Mode, l: string)
    requires IsBegin(l) || IsEnd(l)
    ensures RunLines(st, [l]) == (Mode(IsBegin(l), st.indent), "\n")
  {
    var first := StepText(st, l);
    assert first == (Mode(IsBegin(l), st.indent), "\n");
    assert [l][1..] == [];
    assert RunWith(StepText, first.0, []) == (first.0, "");
    assert RunWith(StepText, st, [l]) == (first.0, "\n" + "");
    assert "\n" + "" == "\n";
  }

  /** After a statement, text lines are indented by the whitespace the
      statement begins with, two spaces more when it ends with `:` (before
      any trailing whitespace), and the next text line's code starts with
      that indent. */
  lemma IndentAfterStatement(st: Mode, stmtLine: string, textLine: string)
    requires !st.inStatements && !IsBegin(stmtLine) && !IsEnd(stmtLine) && StatementOf(stmtLine).Some?
    requires IsTextLine(Step(st, stmtLine).0, textLine)
    ensures var stmt := StatementOf(stmtLine).value; var ind := Step(st, stmtLine).0.indent;
      var lead := LeadingSpace(stmt);
      Step(st, stmtLine).1 == Code(stmt) &&
      |ind| == |lead| + (if OpensBlock(stmt) then 2 else 0) && ind[..|lead|] == stmt[..|lead|] &&
      (forall i :: 0 <= i < |ind| ==> IsSpace(ind[i]))
    ensures var ind := Step(st, stmtLine).0.indent;
      |ind| <= |Emit(Step(Step(st, stmtLine).0, textLine).1)| &&
      Emit(Step(Step(st, stmtLine).0, textLine).1)[..|ind|] == ind
  {
    var stmt := StatementOf(stmtLine).value;
    var next := Step(st, stmtLine).0;
    assert Step(st, stmtLine) == (Mode(false, IndentAfter(stmt)), Code(stmt));
    IndentAfterShape(stmt);
    TextLineIndented(next, textLine);
  }

  /** The indent after a statement: its leading whitespace, and two spaces
      more when it opens a block. */
  lemma IndentAfterShape(stmt: string)
    ensures var ind, lead := IndentAfter(stmt), LeadingSpace(stmt);
      |ind| == |lead| + (if OpensBlock(stmt) then 2 else 0) && ind[..|lead|] == stmt[..|lead|] &&
      (forall i :: 0 <= i < |ind| ==> IsSpace(ind[i]))
  {
    var lead := LeadingSpace(stmt);
    assert IndentAfter(stmt)[..|lead|] == lead;
  }

  /** A text line's Python starts with the current indent. */
  lemma TextLineIndented(st: Mode, line: string)
    requires IsTextLine(st, line)
    ensures |st.indent| <= |Emit(Step(st, line).1)| && Emit(Step(st, line).1)[..|st.indent|] == st.indent
  {
    var o := TextWrite(st.indent, line);
    assert Step(st, line).1 == o;
    TextWriteIndent(st.indent, line);
    PrefixOf(st.indent, WriteLine(Subst(o.literal, o.args), o.ending));
  }

  lemma PrefixOf(a: string, b: string)
    ensures (a + b)[..|a|] == a
  {
  }

  lemma TextWriteIndent(indent: string, line: string)
    ensures TextWrite(indent, line).Write? && TextWrite(indent, line).indent == indent
  {
  }

  // ---------------------------------------------------------------------
  // Line numbers

  /** The number of line feeds. */
  function Feeds(s: string): nat
  {
    multiset(s)['\n']
  }

  /** A line of a template with `\n` line ends. */
  predicate FeedLine(l: string)
  {
    l != [] && l[|l| - 1] == '\n' && '\n' !in l[..|l| - 1] && '\r' !in l
  }

  lemma FeedLineFeeds(l: string)
    requires FeedLine(l)
    ensures Feeds(l) == 1 && OneLine(l)
  {
    assert l == l[..|l| - 1] + [l[|l| - 1]];
    forall j | 0 <= j < |l|
      ensures BreakAtEnd(l, j)
    {
      if j < |l| - 1 {
        assert l[..|l| - 1][j] == l[j];
      }
    }
  }

  lemma {:induction false} JoinNoFeed(sep: string, xs: seq<string>)
    requires '\n' !in sep && forall i :: 0 <= i < |xs| ==> '\n' !in xs[i]
    ensures '\n' !in Join(sep, xs)
    decreases |xs|
  {
    if |xs| > 1 {
      JoinNoFeed(sep, xs[1..]);
    }
  }

  /** With no line feed in the line, none is in its format or its
      expressions. */
  lemma {:induction false} SegsNoFeed(segs: seq<Seg>)
    requires '\n' !in Render(segs)
    ensures '\n' !in Sub(DoubleSegs(segs))
    ensures forall i :: 0 <= i < |Exprs(segs)| ==> '\n' !in Exprs(segs)[i]
    decreases |segs|
  {
    if segs != [] {
      assert DoubleSegs(segs)[1..] == DoubleSegs(segs[1..]);
      SegsNoFeed(segs[1..]);
      match segs[0]
      case Text(t) =>
        DoubleNoFeed(t);
      case Expr(g) =>
        assert Exprs(segs) == [g] + Exprs(segs[1..]);
        assert '\n' !in "{{" + g + "}}";
    }
  }

  lemma {:induction false} DoubleNoFeed(t: string)
    requires '\n' !in t
    ensures '\n' !in Double(t)
    decreases |t|
  {
    if t != [] {
      DoubleNoFeed(t[1..]);
    }
  }

  /** A line with no line feed, rebuilt and scanned again, gives a format
      and expressions with no line feed. */
  lemma RenderedNoFeed(body: string)
    requires '\n' !in body
    ensures var segs := Segs(RenderFrom(body, 0));
      '\n' !in Sub(segs) && '\n' !in Join(", ", Exprs(segs))
  {
    var segs := Segs(body);
    ScanRenders(body, 0, []);
    assert [] + body[0..] == body;
    var n := RenderFrom(body, 0);
    assert n[0..] == n;
    assert Double([]) == [];
    Rescan(body, 0, [], n, 0);
    ExprsDouble(segs);
    SegsNoFeed(segs);
    JoinNoFeed(", ", Exprs(segs));
  }

  /** The literal and the `%` part hold no line feed when the format and
      the joined arguments hold none. */
  lemma SubstNoFeed(lit: string, args: Option<seq<string>>)
    requires '\n' !in lit && (args.Some? ==> '\n' !in Join(", ", args.value))
    ensures '\n' !in Subst(lit, args)
  {
    assert '\n' !in "r\"\"\"" && '\n' !in "\"\"\"" && '\n' !in " % (" && '\n' !in ",)";
  }

  /** The format and the arguments written for a text line hold no line
      feed, nor does the literal of its ending. */
  lemma TextWriteNoFeed(indent: string, line: string)
    requires OneLine(line)
    ensures var o := TextWrite(indent, line);
      o.Write? && '\n' !in Subst(o.literal, o.args) && '\n' !in Repr(o.ending)
  {
    var body := BodyOf(line);
    BodyNoBreak(line);
    ReprNoBreak(EndingOf(line));
    var o := TextWrite(indent, line);
    if Matches(body) != [] {
      var segs := Segs(RenderFrom(body, 0));
      RenderedNoFeed(body);
      assert o == Write(indent, Sub(segs), Some(Exprs(segs)), EndingOf(line));
    }
    SubstNoFeed(o.literal, o.args);
  }

  lemma FeedsSum(a: string, b: string)
    ensures Feeds(a + b) == Feeds(a) + Feeds(b)
  {
    assert multiset(a + b) == multiset(a) + multiset(b);
  }

  lemma FeedsNone(a: string)
    requires '\n' !in a
    ensures Feeds(a) == 0
  {
    assert '\n' !in multiset(a);
  }

  /** A `write` call is written as one line. */
  lemma WriteFeeds(indent: string, lit: string, args: Option<seq<string>>, ending: string)
    requires '\n' !in indent && '\n' !in Subst(lit, args) && '\n' !in Repr(ending)
    ensures Feeds(Emit(Write(indent, lit, args, ending))) == 1
  {
    WriteLineFeeds(Subst(lit, args), ending);
    FeedsNone(indent);
    FeedsSum(indent, WriteLine(Subst(lit, args), ending));
  }

  /** The `write` call itself ends in the one line feed it holds. */
  lemma WriteLineFeeds(subst: string, ending: string)
    requires '\n' !in subst && '\n' !in Repr(ending)
    ensures Feeds(WriteLine(subst, ending)) == 1
  {
    var head := "__outfile__.write(" + subst + " + " + Repr(ending) + ")";
    assert '\n' !in "__outfile__.write(" && '\n' !in " + " && '\n' !in ")";
    assert '\n' !in head;
    FeedsNone(head);
    FeedsSum(head, "\n");
  }

  /** The code written for a text line is one line. */
  lemma WriteOneLine(st: Mode, line: string)
    requires OneLine(line) && IsTextLine(st, line) && '\n' !in st.indent
    ensures Feeds(Emit(Step(st, line).1)) == 1
  {
    var o := TextWrite(st.indent, line);
    assert Step(st, line).1 == o;
    TextWriteNoFeed(st.indent, line);
    TextWriteIndent(st.indent, line);
    WriteFeeds(o.indent, o.literal, o.args, o.ending);
  }

  /** Each line of a template with `\n` line ends becomes one line of
      Python, and the indent never holds a line feed. */
  lemma StepOneLine(st: Mode, line: string)
    requires FeedLine(line) && '\n' !in st.indent
    ensures Feeds(Emit(Step(st, line).1)) == 1 && '\n' !in Step(st, line).0.indent
  {
    FeedLineFeeds(line);
    if IsBegin(line) || IsEnd(line) || st.inStatements {
    } else if StatementOf(line).Some? {
      var stmt := StatementOf(line).value;
      assert stmt + "\n" == stmt + ['\n'];
      assert '\n' !in LeadingSpace(stmt);
    } else {
      WriteOneLine(st, line);
    }
  }

  lemma {:induction false} RunFeeds(st: Mode, lines: seq<string>)
    requires forall k :: 0 <= k < |lines| ==> FeedLine(lines[k])
    requires '\n' !in st.indent
    ensures Feeds(RunLines(st, lines).1) == |lines| == Feeds(Concat(lines))
    decreases |lines|
  {
    if lines != [] {
      StepOneLine(st, lines[0]);
      FeedLineFeeds(lines[0]);
      RunFeeds(Step(st, lines[0]).0, lines[1..]);
    }
  }

  lemma {:induction false} ConcatHas(lines: seq<string>, k: nat, j: nat)
    requires k < |lines| && j < |lines[k]|
    ensures lines[k][j] in Concat(lines)
    decreases k
  {
    if k == 0 {
      assert Concat(lines)[j] == lines[0][j];
    } else {
      ConcatHas(lines[1..], k - 1, j);
    }
  }

  /** The last line ends where the text ends. */
  lemma {:induction false} LastLine(s: string, i: nat)
    requires i < |s|
    ensures var ls := LinesFrom(s, i);
      ls != [] && ls[|ls| - 1] != [] && ls[|ls| - 1][|ls[|ls| - 1]| - 1] == s[|s| - 1]
    decreases |s| - i
  {
    var e := LineEnd(s, i);
    if e < |s| {
      LastLine(s, e);
    }
  }

  /** In a template with `\n` line ends that ends with a line feed, every
      line ends with its own line feed. */
  lemma TemplateFeedLines(template: string)
    requires '\r' !in template && template != [] && template[|template| - 1] == '\n'
    ensures forall k :: 0 <= k < |SplitLines(template)| ==> FeedLine(SplitLines(template)[k])
  {
    var ls := SplitLines(template);
    SplitLinesConcat(template);
    LinesAreLines(template, 0);
    LastLine(template, 0);
    forall k | 0 <= k < |ls|
      ensures FeedLine(ls[k])
    {
      var l := ls[k];
      assert OneLine(l);
      forall j | 0 <= j < |l|
        ensures l[j] != '\r'
      {
        ConcatHas(ls, k, j);
      }
      assert l[|l| - 1] == '\n';
      var init := l[..|l| - 1];
      forall j | 0 <= j < |init|
        ensures init[j] != '\n'
      {
        assert init[j] == l[j];
        assert BreakAtEnd(l, j);
      }
    }
  }

  /** Line numbers match: a template with `\n` line ends compiles to a
      program with as many lines as it has, so an error reported on a
      line of the program points at the same line of the template. */
  lemma LineNumbersKept(template: string)
    requires '\r' !in template && template != [] && template[|template| - 1] == '\n'
    ensures Feeds(Compile(template)) == Feeds(template) == |SplitLines(template)|
  {
    TemplateFeedLines(template);
    SplitLinesConcat(template);
    RunFeeds(Start, SplitLines(template));
  }
}
