/** The identifier spellings the generator derives from a JavaScript name:
    snake_case and MACRO_CASE from CamelCase, and a C identifier from a
    pointer type name such as `int32$`. Letters are ASCII here. */
module HelperNames {

  predicate IsUpper(c: char) { 'A' <= c <= 'Z' }
  predicate IsLower(c: char) { 'a' <= c <= 'z' }

  /** `str.upper` on one character. */
  function ToUpper(c: char): (r: char)
    ensures !IsLower(r)
    ensures IsLower(c) ==> r as int == c as int - 32
    ensures !IsLower(c) ==> r == c
  {
    if IsLower(c) then (c as int - 32) as char else c
  }

  // ---------------------------------------------------------------------
  // CamelToSnake

  /** What `CamelToSnake` emits for character `i`: an underscore goes in
      front of an upper-case letter that follows a lower-case one. */
  function SnakePiece(name: string, i: nat): string
    requires i < |name|
  {
    if i > 0 && IsLower(name[i - 1]) && IsUpper(name[i]) then ['_', name[i]] else [name[i]]
  }

  /** The snake_case spelling, piece by piece. */
  function Snake(name: string): string
    decreases |name|
  {
    if name == [] then [] else Snake(name[..|name| - 1]) + SnakePiece(name, |name| - 1)
  }

  lemma SnakeStep(name: string, i: nat)
    requires i < |name|
    ensures Snake(name[..i + 1]) == Snake(name[..i]) + SnakePiece(name, i)
  {
    assert name[..i + 1][..i] == name[..i];
  }

  /** The loop over the characters, remembering whether the last one was
      lower case. */
  method CamelToSnake(name: string) returns (result: string)
    ensures result == Snake(name)
  {
    result := "";
    var wasLower := false;
    for i := 0 to |name|
      invariant result == Snake(name[..i])
      invariant wasLower == (i > 0 && IsLower(name[i - 1]))
    {
      var c := name[i];
      SnakeStep(name, i);
      if wasLower && IsUpper(c) {
        result := result + ['_', c];
      } else {
        result := result + [c];
      }
      wasLower := IsLower(c);
    }
    assert name[..|name|] == name;
  }

  /** No lower-case letter is directly followed by an upper-case one. */
  predicate NoCamelHump(s: string)
  {
    forall j :: 0 < j < |s| ==> !(IsLower(s[j - 1]) && IsUpper(s[j]))
  }

  /** The snake_case spelling keeps the last character of the name last. */
  lemma {:induction false} SnakeLast(name: string)
    requires name != []
    ensures Snake(name) != [] && Snake(name)[|Snake(name)| - 1] == name[|name| - 1]
  {
  }

  /** Every hump of the CamelCase name gets its underscore. */
  lemma {:induction false} SnakeHasNoHump(name: string)
    ensures NoCamelHump(Snake(name))
    decreases |name|
  {
    if name != [] {
      var init := name[..|name| - 1];
      var piece := SnakePiece(name, |name| - 1);
      SnakeHasNoHump(init);
      var s := Snake(init);
      assert Snake(name) == s + piece;
      forall j | 0 < j < |s + piece|
        ensures !(IsLower((s + piece)[j - 1]) && IsUpper((s + piece)[j]))
      {
        if j == |s| {
          SnakeLast(init);
          assert (s + piece)[j - 1] == name[|name| - 2];
        } else if j > |s| {
          assert piece[0] == '_';
        }
      }
    }
  }

  /** A name without humps is already snake_case. */
  lemma {:induction false} SnakeOfNoHump(s: string)
    requires NoCamelHump(s)
    ensures Snake(s) == s
    decreases |s|
  {
    if s != [] {
      var init := s[..|s| - 1];
      assert NoCamelHump(init) by {
        forall j | 0 < j < |init|
          ensures !(IsLower(init[j - 1]) && IsUpper(init[j]))
        {
          assert init[j - 1] == s[j - 1] && init[j] == s[j];
        }
      }
      SnakeOfNoHump(init);
      assert s == init + [s[|s| - 1]];
    }
  }

  /** Converting twice is converting once. */
  lemma SnakeIdempotent(name: string)
    ensures Snake(Snake(name)) == Snake(name)
  {
    SnakeHasNoHump(name);
    SnakeOfNoHump(Snake(name));
  }

  /** The string with every underscore removed. */
  function WithoutUnderscores(s: string): (r: string)
    ensures '_' !in r
    decreases |s|
  {
    if s == [] then []
    else WithoutUnderscores(s[..|s| - 1]) + (if s[|s| - 1] == '_' then [] else [s[|s| - 1]])
  }

  lemma {:induction false} WithoutUnderscoresAppend(a: string, b: string)
    ensures WithoutUnderscores(a + b) == WithoutUnderscores(a) + WithoutUnderscores(b)
    decreases |b|
  {
    if b == [] {
      assert a + b == a;
    } else {
      var init := b[..|b| - 1];
      assert (a + b)[..|a + b| - 1] == a + init;
      assert (a + b)[|a + b| - 1] == b[|b| - 1];
      WithoutUnderscoresAppend(a, init);
    }
  }

  /** Only underscores are inserted: dropping them from both spellings
      gives the same letters. */
  lemma {:induction false} SnakeOnlyAddsUnderscores(name: string)
    ensures WithoutUnderscores(Snake(name)) == WithoutUnderscores(name)
    decreases |name|
  {
    if name != [] {
      var init := name[..|name| - 1];
      var last := name[|name| - 1];
      SnakeOnlyAddsUnderscores(init);
      WithoutUnderscoresAppend(Snake(init), SnakePiece(name, |name| - 1));
      var piece := SnakePiece(name, |name| - 1);
      if |piece| == 2 {
        assert piece == ['_'] + [last];
        WithoutUnderscoresAppend(['_'], [last]);
        assert WithoutUnderscores(['_']) == [];
      }
      assert WithoutUnderscores([last]) == if last == '_' then [] else [last] by {
        assert [last][..0] == [];
      }
    }
  }

  // ---------------------------------------------------------------------
  // CamelToMacro

  /** `str.upper` on a whole string. */
  function Upper(s: string): (r: string)
    ensures |r| == |s| && forall i :: 0 <= i < |s| ==> r[i] == ToUpper(s[i])
  {
    seq(|s|, i requires 0 <= i < |s| => ToUpper(s[i]))
  }

  /** The MACRO_CASE spelling: snake_case, upper-cased. */
  method CamelToMacro(name: string) returns (result: string)
    ensures result == Upper(Snake(name))
    ensures forall i :: 0 <= i < |result| ==> !IsLower(result[i])
  {
    var snake := CamelToSnake(name);
    result := Upper(snake);
  }

  /** The macro spelling has one character per character of the snake_case
      spelling, the same except that lower-case letters are raised, so an
      underscore sits exactly where the snake_case spelling has one. */
  lemma MacroKeepsUnderscores(name: string, i: nat)
    requires i < |Snake(name)|
    ensures i < |Upper(Snake(name))|
    ensures Upper(Snake(name))[i] == '_' <==> Snake(name)[i] == '_'
  {
  }

  // ---------------------------------------------------------------------
  // MakeCIdent

  /** `js_ident.replace('$', '_p')`. */
  function MakeCIdent(jsIdent: string): (r: string)
    decreases |jsIdent|
  {
    if jsIdent == [] then []
    else (if jsIdent[0] == '$' then "_p" else [jsIdent[0]]) + MakeCIdent(jsIdent[1..])
  }

  function CountDollars(s: string): nat
    decreases |s|
  {
    if s == [] then 0 else (if s[0] == '$' then 1 else 0) + CountDollars(s[1..])
  }

  /** The result is a C identifier character set: no `$` is left, and each
      `$` made the name one character longer. */
  lemma {:induction false} MakeCIdentNoDollar(jsIdent: string)
    ensures '$' !in MakeCIdent(jsIdent)
    ensures |MakeCIdent(jsIdent)| == |jsIdent| + CountDollars(jsIdent)
    decreases |jsIdent|
  {
    if jsIdent != [] {
      MakeCIdentNoDollar(jsIdent[1..]);
    }
  }

  /** A name without `$` is its own C identifier. */
  lemma {:induction false} MakeCIdentKeeps(jsIdent: string)
    requires '$' !in jsIdent
    ensures MakeCIdent(jsIdent) == jsIdent
    decreases |jsIdent|
  {
    if jsIdent != [] {
      assert jsIdent[0] != '$';
      MakeCIdentKeeps(jsIdent[1..]);
      assert jsIdent == [jsIdent[0]] + jsIdent[1..];
    }
  }

  /** Reading `_p` back as `$`. */
  function UnmakeCIdent(cIdent: string): (r: string)
    decreases |cIdent|
  {
    if cIdent == [] then []
    else if |cIdent| >= 2 && cIdent[0] == '_' && cIdent[1] == 'p' then "$" + UnmakeCIdent(cIdent[2..])
    else [cIdent[0]] + UnmakeCIdent(cIdent[1..])
  }

  /** For names with no underscore of their own (every builtin pointer name
      such as `void$$`), the C identifier determines the name. */
  lemma {:induction false} MakeCIdentRoundTrip(jsIdent: string)
    requires '_' !in jsIdent
    ensures UnmakeCIdent(MakeCIdent(jsIdent)) == jsIdent
    decreases |jsIdent|
  {
    if jsIdent != [] {
      var rest := jsIdent[1..];
      assert '_' !in rest by {
        forall j | 0 <= j < |rest|
          ensures rest[j] != '_'
        {
          assert rest[j] == jsIdent[j + 1];
        }
      }
      MakeCIdentRoundTrip(rest);
      var c := MakeCIdent(jsIdent);
      if jsIdent[0] == '$' {
        assert c == "_p" + MakeCIdent(rest);
        assert c[2..] == MakeCIdent(rest);
      } else {
        assert c == [jsIdent[0]] + MakeCIdent(rest);
        assert c[1..] == MakeCIdent(rest);
      }
      assert jsIdent == [jsIdent[0]] + rest;
    }
  }
}
