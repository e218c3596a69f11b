/** What the Python written for a text line means when it runs: the
    `%`-formatting of the substituted literal, the text that results, and
    the `repr` of the line ending. */
module TemplateFormat {
  import opened Wrappers
  import opened TemplateScan

  /** `t` in front of a formatted result, an error passed on. */
  function Prepend(t: string, o: Option<string>): (r: Option<string>)
    ensures r.Some? <==> o.Some?
    ensures r.Some? ==> r.value == t + o.value
  {
    match o
    case Some(x) => Some(t + x)
    case None => None
  }

  lemma PrependTwice(a: string, b: string, o: Option<string>)
    ensures Prepend(a, Prepend(b, o)) == Prepend(a + b, o)
  {
    if o.Some? {
      assert a + (b + o.value) == a + b + o.value;
    }
  }

  /** `f % tuple(vals)` for a format using only `%%` and `%s` on string
      values: `%%` gives `%`, each `%s` takes the next value, and any other
      conversion, a lone `%` at the end, too few values or values left over
      is the error Python raises. */
  function PyFormat(f: string, vals: seq<string>): Option<string>
    decreases |f|
  {
    if f == [] then (if vals == [] then Some([]) else None)
    else if f[0] != '%' then Prepend([f[0]], PyFormat(f[1..], vals))
    else if |f| >= 2 && f[1] == '%' then Prepend("%", PyFormat(f[2..], vals))
    else if |f| >= 2 && f[1] == 's' && vals != [] then Prepend(vals[0], PyFormat(f[2..], vals[1..]))
    else None
  }

  /** `re.sub(expr_re, '%s', line)` on segments: each expression becomes a
      `%s`. */
  function Sub(segs: seq<Seg>): string
    decreases |segs|
  {
    if segs == [] then []
    else (match segs[0] case Text(t) => t case Expr(_) => "%s") + Sub(segs[1..])
  }

  /** The text a line produces once its expressions have the values
      `vals`, in order. */
  function Fill(segs: seq<Seg>, vals: seq<string>): string
    requires |vals| == |Exprs(segs)|
    decreases |segs|
  {
    if segs == [] then []
    else if segs[0].Expr? then vals[0] + Fill(segs[1..], vals[1..])
    else segs[0].text + Fill(segs[1..], vals)
  }

  /** Each expression as it was written, braces included. */
  function Braced(exprs: seq<string>): (r: seq<string>)
    ensures |r| == |exprs| && forall i :: 0 <= i < |exprs| ==> r[i] == "{{" + exprs[i] + "}}"
  {
    seq(|exprs|, i requires 0 <= i < |exprs| => "{{" + exprs[i] + "}}")
  }

  // ---------------------------------------------------------------------
  // Formatting a doubled text

  /** Formatting one doubled character. */
  lemma FormatDoubleChar(c: char, f: string, vals: seq<string>)
    ensures PyFormat(Double([c]) + f, vals) == Prepend([c], PyFormat(f, vals))
  {
    var g := Double([c]) + f;
    if c == '%' {
      assert Double([c]) == "%%";
      assert g[..2] == "%%" && g[2..] == f;
    } else {
      assert Double([c]) == [c];
      assert g[0] == c && g[1..] == f;
    }
  }

  /** Formatting reads a doubled text back as the text. */
  lemma {:induction false} FormatDouble(t: string, rest: string, vals: seq<string>)
    ensures PyFormat(Double(t) + rest, vals) == Prepend(t, PyFormat(rest, vals))
    decreases |t|
  {
    var o := PyFormat(rest, vals);
    if t == [] {
      assert Double(t) + rest == rest;
      if o.Some? {
        assert t + o.value == o.value;
      }
    } else {
      var c, u := t[0], t[1..];
      FormatDouble(u, rest, vals);
      assert t == [c] + u;
      DoubleAppend([c], u);
      assert Double(t) + rest == Double([c]) + (Double(u) + rest);
      FormatDoubleChar(c, Double(u) + rest, vals);
      PrependTwice([c], u, o);
    }
  }

  /** Formatting a `%s` takes one value. */
  lemma FormatPercentS(rest: string, vals: seq<string>)
    ensures PyFormat("%s" + rest, vals) == if vals == [] then None else Prepend(vals[0], PyFormat(rest, vals[1..]))
  {
    assert ("%s" + rest)[2..] == rest;
  }

  /** The format built from a line's segments, text doubled and each
      expression a `%s`, formats exactly when it is given one value per
      expression, and then gives the line with the expressions replaced
      by their values. */
  lemma {:induction false} FormatSegs(segs: seq<Seg>, vals: seq<string>)
    ensures PyFormat(Sub(DoubleSegs(segs)), vals) ==
      if |vals| == |Exprs(segs)| then Some(Fill(segs, vals)) else None
    decreases |segs|
  {
    if segs == [] {
    } else {
      var d := DoubleSegs(segs);
      assert d[1..] == DoubleSegs(segs[1..]);
      match segs[0]
      case Text(t) =>
        assert Sub(d) == Double(t) + Sub(DoubleSegs(segs[1..]));
        FormatDouble(t, Sub(DoubleSegs(segs[1..])), vals);
        FormatSegs(segs[1..], vals);
      case Expr(g) =>
        assert Sub(d) == "%s" + Sub(DoubleSegs(segs[1..]));
        FormatPercentS(Sub(DoubleSegs(segs[1..])), vals);
        if vals != [] {
          FormatSegs(segs[1..], vals[1..]);
        }
    }
  }

  /** Giving each expression its own text, braces included, writes the
      line back. */
  lemma {:induction false} FillBraced(segs: seq<Seg>)
    ensures Fill(segs, Braced(Exprs(segs))) == Render(segs)
    decreases |segs|
  {
    if segs != [] {
      FillBraced(segs[1..]);
      if segs[0].Expr? {
        assert Exprs(segs) == [segs[0].expr] + Exprs(segs[1..]);
        assert Braced(Exprs(segs))[1..] == Braced(Exprs(segs[1..]));
      } else {
        assert Exprs(segs) == Exprs(segs[1..]);
      }
    }
  }

  // ---------------------------------------------------------------------
  // Line endings

  /** The characters moved from the end of a text line into its ending. */
  predicate EndChar(c: char)
  {
    c == '\\' || c == '"' || c == '\n' || c == '\r'
  }

  predicate AllEndChars(s: string)
  {
    forall i :: 0 <= i < |s| ==> EndChar(s[i])
  }

  /** Python 2 `repr` of one ending character inside single quotes. */
  function ReprChar(c: char): string
  {
    if c == '\\' then "\\\\"
    else if c == '\n' then "\\n"
    else if c == '\r' then "\\r"
    else [c]
  }

  function ReprBody(s: string): string
    decreases |s|
  {
    if s == [] then [] else ReprChar(s[0]) + ReprBody(s[1..])
  }

  /** `repr(line_ending)`: single quotes (an ending has no `'`), with
      backslash, line feed and carriage return escaped. */
  function Repr(s: string): string
  {
    "'" + ReprBody(s) + "'"
  }

  /** Reading the inside of a single-quoted literal back. */
  function UnreprBody(s: string): Option<string>
    decreases |s|
  {
    if s == [] then Some([])
    else if s[0] == '\\' then
      if |s| < 2 then None
      else if s[1] == '\\' then Prepend("\\", UnreprBody(s[2..]))
      else if s[1] == 'n' then Prepend("\n", UnreprBody(s[2..]))
      else if s[1] == 'r' then Prepend("\r", UnreprBody(s[2..]))
      else None
    else if s[0] == '\'' then None
    else Prepend([s[0]], UnreprBody(s[1..]))
  }

  /** Reading a single-quoted literal back. */
  function Unrepr(s: string): Option<string>
  {
    if |s| >= 2 && s[0] == '\'' && s[|s| - 1] == '\'' then UnreprBody(s[1..|s| - 1]) else None
  }

  /** The literal written for an ending reads back as that ending. */
  lemma {:induction false} ReprBodyRoundTrip(s: string)
    requires AllEndChars(s)
    ensures UnreprBody(ReprBody(s)) == Some(s)
    decreases |s|
  {
    if s != [] {
      var c := s[0];
      assert EndChar(c);
      assert AllEndChars(s[1..]) by {
        forall i | 0 <= i < |s[1..]|
          ensures EndChar(s[1..][i])
        {
          assert s[1..][i] == s[i + 1];
        }
      }
      ReprBodyRoundTrip(s[1..]);
      var r := ReprBody(s);
      assert r == ReprChar(c) + ReprBody(s[1..]);
      if c == '\\' || c == '\n' || c == '\r' {
        assert r[2..] == ReprBody(s[1..]);
      } else {
        assert r[1..] == ReprBody(s[1..]);
      }
      assert s == [c] + s[1..];
    }
  }

  lemma ReprRoundTrip(s: string)
    requires AllEndChars(s)
    ensures Unrepr(Repr(s)) == Some(s)
  {
    ReprBodyRoundTrip(s);
    var r := Repr(s);
    assert r[1..|r| - 1] == ReprBody(s);
  }

  /** Line ends in the ending are written escaped: the literal itself has
      no line break. */
  lemma {:induction false} ReprNoBreak(s: string)
    requires AllEndChars(s)
    ensures '\n' !in Repr(s) && '\r' !in Repr(s)
    decreases |s|
  {
    if s != [] {
      assert AllEndChars(s[1..]) by {
        forall i | 0 <= i < |s[1..]|
          ensures EndChar(s[1..][i])
        {
          assert s[1..][i] == s[i + 1];
        }
      }
      ReprNoBreak(s[1..]);
      assert ReprBody(s) == ReprChar(s[0]) + ReprBody(s[1..]);
    }
  }
}
