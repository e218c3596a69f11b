/** The `{{expr}}` scanner of the template compiler: where the non-greedy
    pattern `\{\{(.*?)\}\}` matches in a line, read left to right without
    overlap, and what the line looks like cut at those matches. */
module TemplateScan {
  import opened Wrappers

  /** Where a `}}` closes an expression opened before `i`: the first one at
      or after `i`, provided no line feed comes first (`.` does not match
      one). */
  function CloseAt(s: string, i: nat): (r: Option<nat>)
    ensures r.Some? ==> i <= r.value && r.value + 1 < |s| && s[r.value] == '}' && s[r.value + 1] == '}'
    decreases |s| - i
  {
    if i + 1 >= |s| then None
    else if s[i] == '\n' then None
    else if s[i] == '}' && s[i + 1] == '}' then Some(i)
    else CloseAt(s, i + 1)
  }

  /** The end of the match that starts at `p`, if one does. */
  function MatchAt(s: string, p: nat): (r: Option<nat>)
    ensures r.Some? ==> p + 4 <= r.value <= |s|
  {
    if p + 1 < |s| && s[p] == '{' && s[p + 1] == '{' then
      match CloseAt(s, p + 2)
      case Some(j) => Some(j + 2)
      case None => None
    else None
  }

  /** A match: its start and its end (one past the closing `}}`). */
  datatype Match = Match(start: nat, end: nat)

  /** `re.finditer` from position `p`. */
  function MatchesFrom(s: string, p: nat): seq<Match>
    decreases |s| - p
  {
    if p >= |s| then []
    else if MatchAt(s, p).Some? then [Match(p, MatchAt(s, p).value)] + MatchesFrom(s, MatchAt(s, p).value)
    else MatchesFrom(s, p + 1)
  }

  function Matches(s: string): seq<Match>
  {
    MatchesFrom(s, 0)
  }

  /** The line from `p` to its end, cut at the matches into text and
      expressions; `acc` is the text already passed over. */
  function ScanSegs(s: string, p: nat, acc: string): seq<Seg>
    decreases |s| - p
  {
    if p >= |s| then [Text(acc)]
    else
      var m := MatchAt(s, p);
      if m.Some? then ExprThen(acc, s[p + 2..m.value - 2], ScanSegs(s, m.value, []))
      else ScanSegs(s, p + 1, acc + [s[p]])
  }

  /** Text, then an expression, then the rest of the segments. */
  function ExprThen(t: string, g: string, rest: seq<Seg>): seq<Seg>
  {
    [Text(t), Expr(g)] + rest
  }

  /** The line cut at its matches: text, expression, text, ..., text. */
  function Segs(s: string): seq<Seg>
  {
    ScanSegs(s, 0, [])
  }

  /** A piece of a line: text outside any match, or the expression inside
      one. */
  datatype Seg = Text(text: string) | Expr(expr: string)

  /** The line from `p` on with every `%` outside the matches doubled:
      the line the compiler builds before substituting. */
  function RenderFrom(s: string, p: nat): string
    decreases |s| - p
  {
    if p >= |s| then []
    else if MatchAt(s, p).Some? then s[p..MatchAt(s, p).value] + RenderFrom(s, MatchAt(s, p).value)
    else Double([s[p]]) + RenderFrom(s, p + 1)
  }

  /** Segments with their text doubled. */
  function DoubleSegs(segs: seq<Seg>): (r: seq<Seg>)
    ensures |r| == |segs|
    decreases |segs|
  {
    if segs == [] then []
    else [match segs[0] case Text(t) => Text(Double(t)) case Expr(e) => Expr(e)] + DoubleSegs(segs[1..])
  }

  /** Segments written back as they stood in the line. */
  function Render(segs: seq<Seg>): string
    decreases |segs|
  {
    if segs == [] then []
    else (match segs[0] case Text(t) => t case Expr(e) => "{{" + e + "}}") + Render(segs[1..])
  }

  /** `s.replace('%', '%%')`. */
  function Double(s: string): (r: string)
    decreases |s|
  {
    if s == [] then [] else (if s[0] == '%' then "%%" else [s[0]]) + Double(s[1..])
  }

  // ---------------------------------------------------------------------
  // Facts about doubling

  lemma Associative(x: string, y: string, z: string)
    ensures (x + y) + z == x + (y + z)
  {
  }

  lemma SliceCons(s: string, i: nat, j: nat)
    requires i < j <= |s|
    ensures s[i..j] == [s[i]] + s[i + 1..j]
  {
  }

  lemma {:induction false} DoubleAppend(a: string, b: string)
    ensures Double(a + b) == Double(a) + Double(b)
    decreases |a|
  {
    if a == [] {
      assert a + b == b;
    } else {
      assert (a + b)[1..] == a[1..] + b;
      DoubleAppend(a[1..], b);
    }
  }

  /** Doubling keeps the first character unless it is a `%`. */
  lemma DoubleHead(s: string)
    requires s != []
    ensures Double(s) != [] && Double(s)[0] == s[0]
    ensures s[0] == '%' ==> |Double(s)| >= 2 && Double(s)[1] == '%'
  {
  }

  /** No `}}` anywhere in `s`. */
  predicate NoClose(s: string)
  {
    forall j :: 0 <= j < |s| - 1 ==> !(s[j] == '}' && s[j + 1] == '}')
  }

  lemma NoCloseTail(s: string, i: nat)
    requires i <= |s| && NoClose(s)
    ensures NoClose(s[i..])
  {
    forall j | 0 <= j < |s[i..]| - 1
      ensures !(s[i..][j] == '}' && s[i..][j + 1] == '}')
    {
      assert s[i..][j] == s[i + j] && s[i..][j + 1] == s[i + j + 1];
    }
  }

  /** Doubling `%` makes no `}}`. */
  lemma {:induction false} DoubleNoClose(s: string)
    requires NoClose(s)
    ensures NoClose(Double(s))
    decreases |s|
  {
    if s != [] {
      var rest := s[1..];
      NoCloseTail(s, 1);
      DoubleNoClose(rest);
      var head := if s[0] == '%' then "%%" else [s[0]];
      var d := Double(s);
      assert d == head + Double(rest);
      forall j | 0 <= j < |d| - 1
        ensures !(d[j] == '}' && d[j + 1] == '}')
      {
        if j >= |head| {
          assert d[j] == Double(rest)[j - |head|] && d[j + 1] == Double(rest)[j - |head| + 1];
        } else if |head| == 2 {
          assert d[j] == '%';
        } else if s[0] == '}' {
          DoubleHead(rest);
          assert d[j + 1] == rest[0] == s[1];
        }
      }
    }
  }

  /** Without a line feed, `CloseAt` fails only when there is no `}}`. */
  lemma {:induction false} CloseNone(s: string, i: nat)
    requires i <= |s| && '\n' !in s[i..]
    requires CloseAt(s, i).None?
    ensures NoClose(s[i..])
    decreases |s| - i
  {
    if i + 1 < |s| {
      assert s[i] == s[i..][0];
      assert s[i + 1..] == s[i..][1..];
      CloseNone(s, i + 1);
      forall j | 0 <= j < |s[i..]| - 1
        ensures !(s[i..][j] == '}' && s[i..][j + 1] == '}')
      {
        if j == 0 {
          assert s[i..][0] == s[i] && s[i..][1] == s[i + 1];
        } else {
          assert s[i..][j] == s[i + 1..][j - 1] && s[i..][j + 1] == s[i + 1..][j];
        }
      }
    }
  }

  /** Where there is no `}}`, `CloseAt` finds none. */
  lemma {:induction false} NoCloseNone(s: string, i: nat)
    requires i <= |s| && NoClose(s[i..])
    ensures CloseAt(s, i).None?
    decreases |s| - i
  {
    if i + 1 < |s| {
      assert s[i..][0] == s[i] && s[i..][1] == s[i + 1];
      NoCloseTail(s[i..], 1);
      assert s[i..][1..] == s[i + 1..];
      NoCloseNone(s, i + 1);
    }
  }

  /** `CloseAt` reads only what lies between `i` and the `}}` it finds. */
  lemma {:induction false} CloseLocal(s: string, i: nat, t: string, k: nat)
    requires CloseAt(s, i).Some?
    requires k + (CloseAt(s, i).value + 2 - i) <= |t| && i <= |s|
    requires t[k..k + (CloseAt(s, i).value + 2 - i)] == s[i..CloseAt(s, i).value + 2]
    ensures CloseAt(t, k) == Some(k + (CloseAt(s, i).value - i))
    decreases |s| - i
  {
    var j := CloseAt(s, i).value;
    SliceTail(s, i, t, k, j + 2 - i);
    if !(s[i] == '}' && s[i + 1] == '}') {
      CloseLocal(s, i + 1, t, k + 1);
    }
  }

  /** Equal slices agree on their first two characters and on what
      follows the first. */
  lemma SliceTail(s: string, i: nat, t: string, k: nat, n: nat)
    requires 2 <= n && i + n <= |s| && k + n <= |t| && t[k..k + n] == s[i..i + n]
    ensures t[k] == s[i] && t[k + 1] == s[i + 1] && t[k + 1..k + n] == s[i + 1..i + n]
  {
    assert t[k] == t[k..k + n][0] && s[i] == s[i..i + n][0];
    assert t[k + 1] == t[k..k + n][1] && s[i + 1] == s[i..i + n][1];
    assert t[k + 1..k + n] == t[k..k + n][1..];
    assert s[i + 1..i + n] == s[i..i + n][1..];
  }

  /** A match found at `p` in `s` is found at `q` in any `t` holding the
      same characters there. */
  lemma MatchLocal(s: string, p: nat, t: string, q: nat)
    requires MatchAt(s, p).Some?
    requires q + (MatchAt(s, p).value - p) <= |t|
    requires t[q..q + (MatchAt(s, p).value - p)] == s[p..MatchAt(s, p).value]
    ensures MatchAt(t, q) == Some(q + (MatchAt(s, p).value - p))
  {
    var e := MatchAt(s, p).value;
    assert t[q] == s[p] && t[q + 1] == s[p + 1];
    assert t[q + 2..q + 2 + (e - (p + 2))] == s[p + 2..e];
    CloseLocal(s, p + 2, t, q + 2);
  }

  /** Where no `}}` follows, no match starts. */
  lemma NoMatchWithoutClose(L: string, k: nat, i: nat)
    requires k <= |L| && NoClose(L[k..]) && k <= i + 2 && i < |L|
    ensures MatchAt(L, i).None?
  {
    if i + 2 <= |L| {
      NoCloseTail(L[k..], i + 2 - k);
      assert L[k..][i + 2 - k..] == L[i + 2..];
      NoCloseNone(L, i + 2);
    }
  }

  /** A match at `p` depends only on the characters from `p` on. */
  lemma MatchAtSuffix(N: string, q: nat, i: nat)
    requires q + i <= |N|
    ensures MatchAt(N, q + i).None? <==> MatchAt(N[q..], i).None?
  {
    if MatchAt(N, q + i).Some? {
      MatchIntoSuffix(N, q, i, MatchAt(N, q + i).value);
    }
    if MatchAt(N[q..], i).Some? {
      MatchFromSuffix(N, q, i, MatchAt(N[q..], i).value);
    }
  }

  lemma MatchIntoSuffix(N: string, q: nat, i: nat, e: nat)
    requires q + i <= |N| && MatchAt(N, q + i) == Some(e)
    ensures MatchAt(N[q..], i).Some?
  {
    assert N[q..][i..i + (e - (q + i))] == N[q + i..e];
    MatchLocal(N, q + i, N[q..], i);
  }

  lemma MatchFromSuffix(N: string, q: nat, i: nat, e: nat)
    requires q + i <= |N| && MatchAt(N[q..], i) == Some(e)
    ensures MatchAt(N, q + i).Some?
  {
    assert N[q + i..q + i + (e - i)] == N[q..][i..e];
    MatchLocal(N[q..], i, N, q + i);
  }

  /** With no `}}` ahead, the rest of the line is text, all of it doubled. */
  lemma {:induction false} RenderAllText(L: string, k: nat, i: nat)
    requires k <= |L| && NoClose(L[k..]) && k <= i + 2 && i <= |L|
    ensures RenderFrom(L, i) == Double(L[i..])
    decreases |L| - i
  {
    if i < |L| {
      NoMatchWithoutClose(L, k, i);
      RenderAllText(L, k, i + 1);
      assert L[i..] == [L[i]] + L[i + 1..];
      DoubleAppend([L[i]], L[i + 1..]);
    }
  }

  /** The rebuilt line begins with the character it was built from. */
  lemma RenderFromHead(L: string, p: nat)
    requires p < |L|
    ensures RenderFrom(L, p) != [] && RenderFrom(L, p)[0] == L[p]
  {
  }

  /** An opening brace with no match at `p` is no match in the rebuilt
      line either. */
  lemma RescanBrace(L: string, p: nat)
    requires p < |L| && '\n' !in L && MatchAt(L, p).None? && L[p] == '{'
    ensures MatchAt(RenderFrom(L, p), 0).None?
  {
    var tail := RenderFrom(L, p);
    assert Double([L[p]]) == [L[p]];
    assert tail == [L[p]] + RenderFrom(L, p + 1);
    if p + 1 < |L| {
      RenderFromHead(L, p + 1);
      assert tail[1] == L[p + 1];
      if L[p + 1] == '{' {
        RescanBraces(L, p, tail);
      }
    }
  }

  /** Two opening braces with no match at the first: the rest of the line
      has no `}}`, so it is rebuilt as doubled text. */
  lemma RescanBraces(L: string, p: nat, tail: string)
    requires p + 1 < |L| && '\n' !in L && MatchAt(L, p).None? && L[p] == '{' && L[p + 1] == '{'
    requires tail == [L[p]] + RenderFrom(L, p + 1)
    ensures MatchAt(tail, 0).None?
  {
    var d := BraceTail(L, p);
    assert tail == "{{" + d;
    OpenNoClose(tail, d);
  }

  /** After the second of two unmatched opening braces, the rebuilt line
      is doubled text with no `}}`. */
  lemma BraceTail(L: string, p: nat) returns (d: string)
    requires p + 1 < |L| && '\n' !in L && MatchAt(L, p).None? && L[p] == '{' && L[p + 1] == '{'
    ensures NoClose(d) && RenderFrom(L, p + 1) == [L[p + 1]] + d
  {
    d := Double(L[p + 2..]);
    CloseNone(L, p + 2);
    RenderAllText(L, p + 2, p + 1);
    assert L[p + 1..] == [L[p + 1]] + L[p + 2..];
    DoubleAppend([L[p + 1]], L[p + 2..]);
    assert Double([L[p + 1]]) == [L[p + 1]];
    DoubleNoClose(L[p + 2..]);
  }

  /** `{{` followed by text with no `}}` is no match. */
  lemma OpenNoClose(tail: string, d: string)
    requires NoClose(d) && tail == "{{" + d
    ensures MatchAt(tail, 0).None?
  {
    assert tail[2..] == d;
    NoCloseNone(tail, 2);
  }

  /** Where a suffix of `N` is `a + r`, `a` and `r` are slices of `N`. */
  lemma SuffixSplit(N: string, q: nat, a: string, r: string)
    requires q <= |N| && N[q..] == a + r
    ensures q + |a| <= |N| && N[q..q + |a|] == a && N[q + |a|..] == r
  {
    assert N[q..q + |a|] == N[q..][..|a|];
    assert N[q + |a|..] == N[q..][|a|..];
  }

  /** The inside of a `{{...}}` slice. */
  lemma InnerSlice(N: string, q: nat, a: string)
    requires 4 <= |a| && q + |a| <= |N| && N[q..q + |a|] == a
    ensures N[q + 2..q + |a| - 2] == a[2..|a| - 2]
  {
    forall i | 2 <= i < |a| - 2
      ensures N[q + i] == a[i]
    {
      assert N[q..q + |a|][i] == N[q + i];
    }
    assert N[q + 2..q + |a| - 2] == a[2..|a| - 2];
  }

  /** A match at `p` reappears, unchanged, where `p` went. */
  lemma RescanMatch(L: string, p: nat, e: nat, N: string, q: nat)
    requires p < |L| && MatchAt(L, p) == Some(e)
    requires q <= |N| && N[q..] == RenderFrom(L, p)
    ensures q + (e - p) <= |N| && MatchAt(N, q) == Some(q + (e - p))
    ensures N[q + (e - p)..] == RenderFrom(L, e) && N[q + 2..q + (e - p) - 2] == L[p + 2..e - 2]
  {
    var a := L[p..e];
    assert N[q..] == a + RenderFrom(L, e);
    SuffixSplit(N, q, a, RenderFrom(L, e));
    MatchLocal(L, p, N, q);
    InnerSlice(N, q, a);
    InnerSlice(L, p, a);
  }

  /** One text character of the scan. */
  lemma ScanText(s: string, p: nat, acc: string)
    requires p < |s| && MatchAt(s, p).None?
    ensures ScanSegs(s, p, acc) == ScanSegs(s, p + 1, acc + [s[p]])
  {
  }

  /** One match of the scan. */
  lemma ScanMatch(s: string, p: nat, e: nat, acc: string)
    requires p < |s| && MatchAt(s, p) == Some(e)
    ensures ScanSegs(s, p, acc) == ExprThen(acc, s[p + 2..e - 2], ScanSegs(s, e, []))
  {
    assert MatchAt(s, p).value == e;
  }

  lemma DoubleSegsMatch(t: string, g: string, rest: seq<Seg>)
    ensures DoubleSegs([Text(t), Expr(g)] + rest) == [Text(Double(t)), Expr(g)] + DoubleSegs(rest)
  {
    var segs := [Text(t), Expr(g)] + rest;
    assert segs[1..] == [Expr(g)] + rest;
    assert segs[1..][1..] == rest;
  }

  /** Scanning the rebuilt line from where `p` went finds the expressions
      found from `p`, between the doubled texts. */
  lemma {:induction false} Rescan(L: string, p: nat, acc: string, N: string, q: nat)
    requires p <= |L| && '\n' !in L
    requires q <= |N| && N[q..] == RenderFrom(L, p)
    ensures ScanSegs(N, q, Double(acc)) == DoubleSegs(ScanSegs(L, p, acc))
    decreases |L| - p
  {
    if p == |L| {
      assert q == |N|;
    } else if MatchAt(L, p).Some? {
      var e := MatchAt(L, p).value;
      var f := q + (e - p);
      RescanMatch(L, p, e, N, q);
      Rescan(L, e, [], N, f);
      RescanExpr(L, p, e, acc, N, q, f);
    } else {
      RescanText(L, p, acc, N, q);
    }
  }

  /** The match step of `Rescan`: the expression, then what follows it,
      found alike in both lines. */
  lemma RescanExpr(L: string, p: nat, e: nat, acc: string, N: string, q: nat, f: nat)
    requires p < |L| && MatchAt(L, p) == Some(e)
    requires q < |N| && MatchAt(N, q) == Some(f) && N[q + 2..f - 2] == L[p + 2..e - 2]
    requires ScanSegs(N, f, Double([])) == DoubleSegs(ScanSegs(L, e, []))
    ensures ScanSegs(N, q, Double(acc)) == DoubleSegs(ScanSegs(L, p, acc))
  {
    assert Double([]) == [];
    ScanMatch(L, p, e, acc);
    ScanMatch(N, q, f, Double(acc));
    DoubleSegsMatch(acc, L[p + 2..e - 2], ScanSegs(L, e, []));
  }

  /** The text step of `Rescan`: one character, doubled if it is `%`. */
  lemma {:induction false} RescanText(L: string, p: nat, acc: string, N: string, q: nat)
    requires p < |L| && '\n' !in L && MatchAt(L, p).None?
    requires q <= |N| && N[q..] == RenderFrom(L, p)
    ensures ScanSegs(N, q, Double(acc)) == DoubleSegs(ScanSegs(L, p, acc))
    decreases |L| - p, 0
  {
    var c := L[p];
    var k := if c == '%' then 2 else 1;
    assert Double([c]) == if c == '%' then "%%" else [c];
    assert N[q..] == Double([c]) + RenderFrom(L, p + 1);
    SuffixSplit(N, q, Double([c]), RenderFrom(L, p + 1));
    assert N[q] == N[q..q + k][0] == c;
    if c == '{' {
      RescanBrace(L, p);
      MatchAtSuffix(N, q, 0);
    }
    if k == 2 {
      assert N[q + 1] == N[q..q + k][1] == '%';
    }
    DoubleAppend(acc, [c]);
    Rescan(L, p + 1, acc + [c], N, q + k);
    ScanText(L, p, acc);
    ScanText(N, q, Double(acc));
    if k == 2 {
      ScanText(N, q + 1, Double(acc) + [c]);
      assert Double(acc) + [c] + [N[q + 1]] == Double(acc) + Double([c]);
    }
  }

  // ---------------------------------------------------------------------
  // The matches of `finditer` against the scan

  /** The expressions among the segments, in order. */
  function Exprs(segs: seq<Seg>): (r: seq<string>)
    ensures |r| <= |segs|
    decreases |segs|
  {
    if segs == [] then []
    else (if segs[0].Expr? then [segs[0].expr] else []) + Exprs(segs[1..])
  }

  lemma ExprsThen(t: string, g: string, rest: seq<Seg>)
    ensures Exprs(ExprThen(t, g, rest)) == [g] + Exprs(rest)
  {
    var segs := ExprThen(t, g, rest);
    assert segs[1..] == [Expr(g)] + rest;
    assert segs[1..][1..] == rest;
  }

  /** The first match from `p`: where it lies, what follows it, and how the
      rebuilt line reads up to its end. */
  lemma {:induction false} MatchesHead(L: string, p: nat, m: Match)
    requires p <= |L| && MatchesFrom(L, p) != [] && m == MatchesFrom(L, p)[0]
    ensures p <= m.start < m.end <= |L| && MatchAt(L, m.start) == Some(m.end)
    ensures MatchesFrom(L, p)[1..] == MatchesFrom(L, m.end)
    ensures RenderFrom(L, p) == Double(L[p..m.start]) + (L[m.start..m.end] + RenderFrom(L, m.end))
    decreases |L| - p
  {
    if MatchAt(L, p).Some? {
      assert L[p..p] == [];
    } else {
      MatchesHead(L, p + 1, m);
      var c, t, u := [L[p]], L[p + 1..m.start], L[m.start..m.end] + RenderFrom(L, m.end);
      assert RenderFrom(L, p) == Double(c) + (Double(t) + u);
      SliceCons(L, p, m.start);
      DoubleAppend(c, t);
      Associative(Double(c), Double(t), u);
    }
  }

  /** With no match from `p` on, the rest is one text, doubled throughout
      in the rebuilt line. */
  lemma {:induction false} NoMatches(L: string, p: nat, acc: string)
    requires p <= |L| && MatchesFrom(L, p) == []
    ensures RenderFrom(L, p) == Double(L[p..])
    ensures ScanSegs(L, p, acc) == [Text(acc + L[p..])]
    decreases |L| - p
  {
    if p == |L| {
      assert acc + L[p..] == acc;
    } else {
      assert MatchAt(L, p).None?;
      NoMatches(L, p + 1, acc + [L[p]]);
      assert L[p..] == [L[p]] + L[p + 1..];
      DoubleAppend([L[p]], L[p + 1..]);
      assert acc + [L[p]] + L[p + 1..] == acc + L[p..];
    }
  }

  /** The scan finds one expression per match of `finditer`. */
  lemma {:induction false} ExprsCount(L: string, p: nat, acc: string)
    requires p <= |L|
    ensures |Exprs(ScanSegs(L, p, acc))| == |MatchesFrom(L, p)|
    decreases |L| - p
  {
    if p < |L| {
      if MatchAt(L, p).Some? {
        var e := MatchAt(L, p).value;
        ScanMatch(L, p, e, acc);
        ExprsThen(acc, L[p + 2..e - 2], ScanSegs(L, e, []));
        ExprsCount(L, e, []);
      } else {
        ScanText(L, p, acc);
        ExprsCount(L, p + 1, acc + [L[p]]);
      }
    }
  }

  /** Writing the segments back gives the line: the scan loses nothing. */
  lemma {:induction false} ScanRenders(L: string, p: nat, acc: string)
    requires p <= |L|
    ensures Render(ScanSegs(L, p, acc)) == acc + L[p..]
    decreases |L| - p
  {
    if p == |L| {
      assert Render([Text(acc)]) == acc;
    } else if MatchAt(L, p).Some? {
      var e := MatchAt(L, p).value;
      ScanRenders(L, e, []);
      RendersMatch(L, p, e, acc);
    } else {
      ScanRenders(L, p + 1, acc + [L[p]]);
      RendersText(L, p, acc);
    }
  }

  /** The match step of `ScanRenders`. */
  lemma RendersMatch(L: string, p: nat, e: nat, acc: string)
    requires p < |L| && MatchAt(L, p) == Some(e)
    requires Render(ScanSegs(L, e, [])) == [] + L[e..]
    ensures Render(ScanSegs(L, p, acc)) == acc + L[p..]
  {
    var g := L[p + 2..e - 2];
    var rest := ScanSegs(L, e, []);
    ScanMatch(L, p, e, acc);
    RenderThen(acc, g, rest);
    assert [] + L[e..] == L[e..];
    MatchBraces(L, p, e);
    SuffixAt(L, p, e);
  }

  /** The text step of `ScanRenders`. */
  lemma RendersText(L: string, p: nat, acc: string)
    requires p < |L| && MatchAt(L, p).None?
    requires Render(ScanSegs(L, p + 1, acc + [L[p]])) == acc + [L[p]] + L[p + 1..]
    ensures Render(ScanSegs(L, p, acc)) == acc + L[p..]
  {
    ScanText(L, p, acc);
    SuffixAt(L, p, p + 1);
    Associative(acc, [L[p]], L[p + 1..]);
  }

  lemma SuffixAt(s: string, i: nat, j: nat)
    requires i <= j <= |s|
    ensures s[i..] == s[i..j] + s[j..]
  {
  }

  lemma RenderThen(t: string, g: string, rest: seq<Seg>)
    ensures Render(ExprThen(t, g, rest)) == t + ("{{" + g + "}}" + Render(rest))
  {
    var segs := ExprThen(t, g, rest);
    assert segs[1..] == [Expr(g)] + rest;
    assert segs[1..][1..] == rest;
  }

  /** A match is `{{`, its expression, `}}`. */
  lemma MatchBraces(L: string, p: nat, e: nat)
    requires p < |L| && MatchAt(L, p) == Some(e)
    ensures L[p..e] == "{{" + L[p + 2..e - 2] + "}}"
  {
    var j := CloseAt(L, p + 2).value;
    assert e == j + 2;
  }
}
