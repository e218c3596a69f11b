/** The pure parts of the binding generator's driver (bin/gen.py): the
    clang argument list transforms, the `--remap FROM=TO` option, the
    acceptance rule for declarations and the removal of STRIP regions
    from templates. */
module Gen {
  import opened Wrappers

  // ---------------------------------------------------------------------
  // Clang argument lists

  predicate StartsWithDash(s: string)
  {
    |s| > 0 && s[0] == '-'
  }

  /** A parsed argument: a flag with the value that follows it, or an
      argument on its own. */
  datatype Arg = Arg(name: string, value: Option<string>)

  /** What `ParseClangArgs` computes: a dash argument followed by an
      argument without a dash takes that argument as its value. */
  function ParsedArgs(args: seq<string>): (r: seq<Arg>)
    decreases |args|
  {
    if args == [] then []
    else if StartsWithDash(args[0]) && 1 < |args| && !StartsWithDash(args[1]) then
      [Arg(args[0], Some(args[1]))] + ParsedArgs(args[2..])
    else
      [Arg(args[0], None)] + ParsedArgs(args[1..])
  }

  /** What `UnparseClangArgs` computes: each argument, followed by its
      value if it has one. */
  function UnparsedArgs(parsed: seq<Arg>): (r: seq<string>)
  {
    if parsed == [] then []
    else
      (if parsed[0].value.Some? then [parsed[0].name, parsed[0].value.value] else [parsed[0].name])
        + UnparsedArgs(parsed[1..])
  }

  /** A list as `ParseClangArgs` produces it: values belong to dash
      arguments and have no dash, and a dash argument without a value is
      not followed by an argument without a dash. */
  predicate Canonical(parsed: seq<Arg>)
  {
    forall i :: 0 <= i < |parsed| ==>
      (parsed[i].value.Some? ==> StartsWithDash(parsed[i].name) && !StartsWithDash(parsed[i].value.value)) &&
      (parsed[i].value.None? && StartsWithDash(parsed[i].name) && i + 1 < |parsed| ==>
        StartsWithDash(parsed[i + 1].name))
  }

  /** Unparsing gives back the arguments that were parsed. */
  lemma {:induction false} UnparseParse(args: seq<string>)
    ensures UnparsedArgs(ParsedArgs(args)) == args
    decreases |args|
  {
    if args != [] {
      ParsedAt(args, 0);
      assert args[0..] == args;
      if StartsWithDash(args[0]) && 1 < |args| && !StartsWithDash(args[1]) {
        var rest := ParsedArgs(args[2..]);
        var a := Arg(args[0], Some(args[1]));
        assert ([a] + rest)[1..] == rest;
        assert UnparsedArgs([a] + rest) == [args[0], args[1]] + UnparsedArgs(rest);
        UnparseParse(args[2..]);
        assert args == [args[0], args[1]] + args[2..];
      } else {
        var rest := ParsedArgs(args[1..]);
        var a := Arg(args[0], None);
        assert ([a] + rest)[1..] == rest;
        assert UnparsedArgs([a] + rest) == [args[0]] + UnparsedArgs(rest);
        UnparseParse(args[1..]);
        assert args == [args[0]] + args[1..];
      }
    }
  }

  /** Parsing always gives a canonical list. */
  lemma {:induction false} ParsedCanonical(args: seq<string>)
    ensures Canonical(ParsedArgs(args))
    decreases |args|
  {
    if args != [] {
      var p := ParsedArgs(args);
      if StartsWithDash(args[0]) && 1 < |args| && !StartsWithDash(args[1]) {
        ParsedCanonical(args[2..]);
        assert p == [p[0]] + ParsedArgs(args[2..]);
      } else {
        ParsedCanonical(args[1..]);
        var rest := ParsedArgs(args[1..]);
        assert p == [p[0]] + rest;
        if StartsWithDash(args[0]) && 1 < |p| {
          ParsedHead(args[1..]);
        }
      }
    }
  }

  /** The first parsed argument is the first argument. */
  lemma ParsedHead(args: seq<string>)
    requires args != []
    ensures ParsedArgs(args) != [] && ParsedArgs(args)[0].name == args[0]
  {
  }

  /** Parsing the unparsed form of a canonical list gives it back. */
  lemma {:induction false} ParseUnparse(parsed: seq<Arg>)
    requires Canonical(parsed)
    ensures ParsedArgs(UnparsedArgs(parsed)) == parsed
  {
    if parsed != [] {
      var a := parsed[0];
      var rest := parsed[1..];
      assert Canonical(rest) by {
        forall i | 0 <= i < |rest|
          ensures (rest[i].value.Some? ==> StartsWithDash(rest[i].name) && !StartsWithDash(rest[i].value.value)) &&
            (rest[i].value.None? && StartsWithDash(rest[i].name) && i + 1 < |rest| ==> StartsWithDash(rest[i + 1].name))
        {
          assert rest[i] == parsed[i + 1];
        }
      }
      ParseUnparse(rest);
      var tail := UnparsedArgs(rest);
      if a.value.Some? {
        assert UnparsedArgs(parsed) == [a.name, a.value.value] + tail;
        assert (UnparsedArgs(parsed))[2..] == tail;
      } else {
        assert UnparsedArgs(parsed) == [a.name] + tail;
        assert (UnparsedArgs(parsed))[1..] == tail;
        if StartsWithDash(a.name) && tail != [] {
          UnparsedHead(rest);
        }
      }
    }
  }

  /** The first unparsed argument is the first argument's name. */
  lemma UnparsedHead(parsed: seq<Arg>)
    requires UnparsedArgs(parsed) != []
    ensures parsed != [] && UnparsedArgs(parsed)[0] == parsed[0].name
  {
  }

  /** `ParseClangArgs`. */
  method ParseClangArgs(args: seq<string>) returns (result: seq<Arg>)
    ensures result == ParsedArgs(args)
    ensures Canonical(result) && UnparsedArgs(result) == args
  {
    result := [];
    var i := 0;
    while i < |args|
      invariant 0 <= i <= |args|
      invariant result + ParsedArgs(args[i..]) == ParsedArgs(args)
    {
      var arg := args[i];
      var a: Arg;
      var next: nat;
      if StartsWithDash(arg) && i + 1 < |args| && !StartsWithDash(args[i + 1]) {
        a, next := Arg(arg, Some(args[i + 1])), i + 2;
      } else {
        a, next := Arg(arg, None), i + 1;
      }
      ParsedAt(args, i);
      AppendPiece(result, [a], ParsedArgs(args[next..]));
      result := result + [a];
      i := next;
    }
    assert args[i..] == [];
    ParsedCanonical(args);
    UnparseParse(args);
  }

  /** `ParsedArgs` from position `i` on takes one or two arguments. */
  lemma ParsedAt(args: seq<string>, i: nat)
    requires i < |args|
    ensures ParsedArgs(args[i..]) ==
      if StartsWithDash(args[i]) && i + 1 < |args| && !StartsWithDash(args[i + 1])
      then [Arg(args[i], Some(args[i + 1]))] + ParsedArgs(args[i + 2..])
      else [Arg(args[i], None)] + ParsedArgs(args[i + 1..])
  {
    assert args[i..][1..] == args[i + 1..];
    if i + 1 < |args| {
      assert args[i..][2..] == args[i + 2..];
    }
  }

  /** Moving a piece from the rest onto what is done keeps the whole. */
  lemma AppendPiece<T>(done: seq<T>, piece: seq<T>, rest: seq<T>)
    ensures done + (piece + rest) == (done + piece) + rest
  {
  }

  /** `UnparseClangArgs`. */
  method UnparseClangArgs(parsed: seq<Arg>) returns (result: seq<string>)
    ensures result == UnparsedArgs(parsed)
    ensures Canonical(parsed) ==> ParsedArgs(result) == parsed
  {
    result := [];
    var i := 0;
    while i < |parsed|
      invariant 0 <= i <= |parsed|
      invariant result + UnparsedArgs(parsed[i..]) == UnparsedArgs(parsed)
    {
      var piece := if parsed[i].value.Some? then [parsed[i].name, parsed[i].value.value] else [parsed[i].name];
      assert parsed[i..][1..] == parsed[i + 1..];
      assert UnparsedArgs(parsed[i..]) == piece + UnparsedArgs(parsed[i + 1..]);
      AppendPiece(result, piece, UnparsedArgs(parsed[i + 1..]));
      result := result + piece;
      i := i + 1;
    }
    assert parsed[i..] == [];
    if Canonical(parsed) {
      ParseUnparse(parsed);
    }
  }

  /** Whether `RenameParsedArgs` renames an argument: the table has a
      new name for it, and that name is not empty. */
  predicate Renames(toRename: map<string, string>, name: string)
  {
    name in toRename && toRename[name] != ""
  }

  function RenamedArg(a: Arg, toRename: map<string, string>): Arg
  {
    if Renames(toRename, a.name) then Arg(toRename[a.name], a.value) else a
  }

  /** `RenameParsedArgs`: each argument renamed by the table, in place;
      values and order are kept. */
  method RenameParsedArgs(args: seq<Arg>, toRename: map<string, string>) returns (result: seq<Arg>)
    ensures |result| == |args|
    ensures forall i :: 0 <= i < |args| ==>
      result[i].value == args[i].value &&
      (Renames(toRename, args[i].name) ==> result[i].name == toRename[args[i].name]) &&
      (!Renames(toRename, args[i].name) ==> result[i] == args[i])
  {
    result := [];
    for i := 0 to |args|
      invariant |result| == i
      invariant forall j :: 0 <= j < i ==> result[j] == RenamedArg(args[j], toRename)
    {
      var arg := args[i];
      if Renames(toRename, arg.name) {
        result := result + [Arg(toRename[arg.name], arg.value)];
      } else {
        result := result + [arg];
      }
    }
  }

  /** `FilterParsedArgs`: the arguments whose name is not filtered out,
      in their order. */
  function FilterParsedArgs(args: seq<Arg>, toFilterOut: set<string>): (r: seq<Arg>)
    ensures |r| <= |args|
    ensures forall a :: a in r <==> a in args && a.name !in toFilterOut
  {
    if args == [] then []
    else if args[0].name in toFilterOut then FilterParsedArgs(args[1..], toFilterOut)
    else [args[0]] + FilterParsedArgs(args[1..], toFilterOut)
  }

  /** Filtering keeps the order: the result of filtering a concatenation
      is the concatenation of the results. */
  lemma {:induction false} FilterAppend(a: seq<Arg>, b: seq<Arg>, toFilterOut: set<string>)
    ensures FilterParsedArgs(a + b, toFilterOut) == FilterParsedArgs(a, toFilterOut) + FilterParsedArgs(b, toFilterOut)
  {
    if a != [] {
      assert (a + b)[1..] == a[1..] + b;
      FilterAppend(a[1..], b, toFilterOut);
    } else {
      assert a + b == b;
    }
  }

  /** Filtering twice filters once. */
  lemma {:induction false} FilterIdempotent(args: seq<Arg>, toFilterOut: set<string>)
    ensures FilterParsedArgs(FilterParsedArgs(args, toFilterOut), toFilterOut) == FilterParsedArgs(args, toFilterOut)
  {
    if args != [] {
      FilterIdempotent(args[1..], toFilterOut);
      if args[0].name !in toFilterOut {
        var rest := FilterParsedArgs(args[1..], toFilterOut);
        assert ([args[0]] + rest)[1..] == rest;
      }
    }
  }

  // ---------------------------------------------------------------------
  // The --remap option

  /** Python's `str.split(sep)`: the pieces between the separators. */
  function SplitOn(s: string, sep: char): (parts: seq<string>)
    ensures |parts| >= 1
    ensures forall i :: 0 <= i < |parts| ==> sep !in parts[i]
  {
    if |s| == 0 then [""]
    else if s[0] == sep then [""] + SplitOn(s[1..], sep)
    else
      var rest := SplitOn(s[1..], sep);
      [[s[0]] + rest[0]] + rest[1..]
  }

  /** The number of times `c` occurs in `s`. */
  function Count(s: string, c: char): nat
  {
    if |s| == 0 then 0 else (if s[0] == c then 1 else 0) + Count(s[1..], c)
  }

  /** There is one more piece than separators. */
  lemma {:induction false} SplitOnCount(s: string, sep: char)
    ensures |SplitOn(s, sep)| == Count(s, sep) + 1
  {
    if |s| > 0 {
      SplitOnCount(s[1..], sep);
    }
  }

  /** With exactly two pieces, the string is the first, the separator
      and the second. */
  lemma {:induction false} SplitOnTwo(s: string, sep: char)
    requires |SplitOn(s, sep)| == 2
    ensures s == SplitOn(s, sep)[0] + [sep] + SplitOn(s, sep)[1]
  {
    var parts := SplitOn(s, sep);
    if s[0] == sep {
      var rest := SplitOn(s[1..], sep);
      assert |rest| == 1;
      SplitOnOne(s[1..], sep);
      assert s == [s[0]] + s[1..];
    } else {
      var rest := SplitOn(s[1..], sep);
      SplitOnTwo(s[1..], sep);
      assert s == [s[0]] + s[1..];
    }
  }

  /** With one piece, the piece is the whole string. */
  lemma {:induction false} SplitOnOne(s: string, sep: char)
    requires |SplitOn(s, sep)| == 1
    ensures SplitOn(s, sep)[0] == s
  {
    if |s| > 0 {
      SplitOnOne(s[1..], sep);
      assert s == [s[0]] + s[1..];
    }
  }

  datatype RemapError = BadFormat | AlreadyRemapped(from: string, to: string)

  /** `ParseRemapOption`: `FROM=TO` adds the remapping to the table. The
      value must split into exactly two pieces at '=', and FROM must not
      be remapped already. */
  function ParseRemapOption(remap: map<string, string>, value: string): (r: Result<map<string, string>, RemapError>)
    ensures r == Err(BadFormat) <==> Count(value, '=') != 1
    ensures r.Err? && r != Err(BadFormat) ==>
      exists from :: from in remap && r == Err(AlreadyRemapped(from, remap[from])) && from + "=" <= value
    ensures r.Ok? ==> exists from, to ::
      value == from + "=" + to && '=' !in from && '=' !in to &&
      from !in remap && r.value == remap[from := to]
  {
    var parts := SplitOn(value, '=');
    SplitOnCount(value, '=');
    if |parts| != 2 then Err(BadFormat)
    else
      var from, to := parts[0], parts[1];
      SplitOnTwo(value, '=');
      assert value == from + "=" + to;
      if from in remap then Err(AlreadyRemapped(from, remap[from]))
      else Ok(remap[from := to])
  }

  // ---------------------------------------------------------------------
  // Accepting declarations

  /** `Acceptor`: the translation unit's file, the white- and blacklists
      of file and symbol patterns, and the default answer. */
  datatype Acceptor = Acceptor(
    tuFile: string,
    wlFiles: seq<string>, wlSyms: seq<string>,
    blFiles: seq<string>, blSyms: seq<string>,
    default: bool)

  /** Some pattern of `patterns` matches `s`. `matches(p, s)` stands for
      Python's `re.match(p, s)`. */
  predicate AnyMatch(patterns: seq<string>, s: string, matches: (string, string) -> bool)
  {
    exists p :: p in patterns && matches(p, s)
  }

  /** The decision `Accept` makes, in order: a whitelisted file or
      symbol is accepted; then a blacklisted file or symbol is rejected;
      then a declaration in the translation unit's own file is accepted;
      everything else gets the default. */
  predicate Accepted(acc: Acceptor, filename: string, name: string, matches: (string, string) -> bool)
  {
    if AnyMatch(acc.wlFiles, filename, matches) || AnyMatch(acc.wlSyms, name, matches) then true
    else if AnyMatch(acc.blFiles, filename, matches) || AnyMatch(acc.blSyms, name, matches) then false
    else if filename == acc.tuFile then true
    else acc.default
  }

  /** Whether a pattern in `patterns` matches `s`, searched in order. */
  method FindMatch(patterns: seq<string>, s: string, matches: (string, string) -> bool) returns (found: bool)
    ensures found <==> AnyMatch(patterns, s, matches)
  {
    for i := 0 to |patterns|
      invariant forall j :: 0 <= j < i ==> !matches(patterns[j], s)
    {
      if matches(patterns[i], s) {
        return true;
      }
    }
    return false;
  }

  /** `Acceptor.Accept`. */
  method Accept(acc: Acceptor, filename: string, name: string, matches: (string, string) -> bool) returns (accepted: bool)
    ensures accepted == Accepted(acc, filename, name, matches)
  {
    var found := FindMatch(acc.wlFiles, filename, matches);
    if found {
      return true;
    }
    found := FindMatch(acc.wlSyms, name, matches);
    if found {
      return true;
    }
    found := FindMatch(acc.blFiles, filename, matches);
    if found {
      return false;
    }
    found := FindMatch(acc.blSyms, name, matches);
    if found {
      return false;
    }
    if filename == acc.tuFile {
      return true;
    }
    return acc.default;
  }

  /** The acceptor `CollectFromHeader` builds: everything is accepted by
      default, unless there is an explicit whitelist. */
  function MakeAcceptor(tuFile: string, wlFiles: seq<string>, wlSyms: seq<string>,
                        blFiles: seq<string>, blSyms: seq<string>): (acc: Acceptor)
    ensures acc.default <==> wlFiles == [] && wlSyms == []
  {
    Acceptor(tuFile, wlFiles, wlSyms, blFiles, blSyms, wlFiles == [] && wlSyms == [])
  }

  /** With a whitelist, a declaration is accepted exactly when it is
      whitelisted, or it is in the translation unit's file and not
      blacklisted. Without one, exactly when it is not blacklisted. */
  lemma AcceptWithWhitelist(tuFile: string, wlFiles: seq<string>, wlSyms: seq<string>,
                            blFiles: seq<string>, blSyms: seq<string>,
                            filename: string, name: string, matches: (string, string) -> bool)
    ensures var acc := MakeAcceptor(tuFile, wlFiles, wlSyms, blFiles, blSyms);
      var blacklisted := AnyMatch(blFiles, filename, matches) || AnyMatch(blSyms, name, matches);
      (wlFiles != [] || wlSyms != [] ==>
        (Accepted(acc, filename, name, matches) <==>
          AnyMatch(wlFiles, filename, matches) || AnyMatch(wlSyms, name, matches) ||
          (!blacklisted && filename == tuFile))) &&
      (wlFiles == [] && wlSyms == [] ==>
        (Accepted(acc, filename, name, matches) <==> !blacklisted))
  {
    if wlFiles == [] && wlSyms == [] {
      assert !AnyMatch(wlFiles, filename, matches) && !AnyMatch(wlSyms, name, matches);
    }
  }

  // ---------------------------------------------------------------------
  // STRIP regions

  /** The number of '*' at the start of `s`. */
  function LeadingStars(s: string): (n: nat)
    ensures n <= |s|
  {
    if |s| > 0 && s[0] == '*' then 1 + LeadingStars(s[1..]) else 0
  }

  /** The number of '*' at the end of `s`. */
  function TrailingStars(s: string): (n: nat)
    ensures n <= |s|
  {
    if |s| > 0 && s[|s| - 1] == '*' then 1 + TrailingStars(s[..|s| - 1]) else 0
  }

  const STRIP_START := "STRIP_START"
  const STRIP_END := "STRIP_END"

  /** A whole line matching `/\*+ WORD \*+/`: a slash, one or more
      stars, the word between single spaces, one or more stars, a slash. */
  predicate IsMarkerLine(line: string, word: string)
  {
    |line| >= 2 && line[0] == '/' && line[|line| - 1] == '/' &&
    var inner := line[1..|line| - 1];
    var a, b := LeadingStars(inner), TrailingStars(inner);
    a >= 1 && b >= 1 && a + b <= |inner| && inner[a..|inner| - b] == " " + word + " "
  }

  /** The index of the first marker line for `word` at or after `pos`,
      as the regular expression search from `pos` finds it. */
  function FirstMarker(lines: seq<string>, pos: nat, word: string): (r: Option<nat>)
    requires pos <= |lines|
    ensures r.Some? ==> pos <= r.value < |lines|
    decreases |lines| - pos
  {
    if pos == |lines| then None
    else if IsMarkerLine(lines[pos], word) then Some(pos)
    else FirstMarker(lines, pos + 1, word)
  }

  /** The search finds the first marker line from `pos` on, and none when
      there is none. */
  lemma {:induction false} FirstMarkerIsFirst(lines: seq<string>, pos: nat, word: string)
    requires pos <= |lines|
    ensures FirstMarker(lines, pos, word).Some? ==>
      var i := FirstMarker(lines, pos, word).value;
      IsMarkerLine(lines[i], word) && forall j :: pos <= j < i ==> !IsMarkerLine(lines[j], word)
    ensures FirstMarker(lines, pos, word).None? ==> forall j :: pos <= j < |lines| ==> !IsMarkerLine(lines[j], word)
    decreases |lines| - pos
  {
    if pos < |lines| && !IsMarkerLine(lines[pos], word) {
      FirstMarkerIsFirst(lines, pos + 1, word);
    }
  }

  /** The first marker from `pos` is the one after a run of non-marker
      lines. */
  lemma {:induction false} FirstMarkerAfter(lines: seq<string>, pos: nat, word: string, i: nat)
    requires pos <= i <= |lines|
    requires forall j :: pos <= j < i ==> !IsMarkerLine(lines[j], word)
    ensures i == |lines| ==> FirstMarker(lines, pos, word) == None
    ensures i < |lines| && IsMarkerLine(lines[i], word) ==> FirstMarker(lines, pos, word) == Some(i)
    decreases i - pos
  {
    if pos < i {
      FirstMarkerAfter(lines, pos + 1, word, i);
    }
  }

  /** The regular expression search from `pos`: scans the lines for the
      first marker line. */
  method FindMarker(lines: seq<string>, pos: nat, word: string) returns (r: Option<nat>)
    requires pos <= |lines|
    ensures r == FirstMarker(lines, pos, word)
  {
    var i := pos;
    while i < |lines|
      invariant pos <= i <= |lines|
      invariant forall j :: pos <= j < i ==> !IsMarkerLine(lines[j], word)
    {
      if IsMarkerLine(lines[i], word) {
        FirstMarkerAfter(lines, pos, word, i);
        return Some(i);
      }
      i := i + 1;
    }
    FirstMarkerAfter(lines, pos, word, i);
    r := None;
  }

  datatype StripError = UnclosedRegion

  /** `acc` followed by the result, if there is one. */
  function Prefixed(acc: seq<string>, r: Result<seq<string>, StripError>): Result<seq<string>, StripError>
  {
    match r
    case Ok(rest) => Ok(acc + rest)
    case Err(err) => Err(err)
  }

  /** What `StripRegions` computes from line `pos` on, with the text taken
      as its lines: each region from a start marker line to the next end
      marker line becomes one empty line, and a start marker with no end
      marker after it is an error. */
  function StrippedFrom(lines: seq<string>, pos: nat): Result<seq<string>, StripError>
    requires pos <= |lines|
    decreases |lines| - pos
  {
    var start := FirstMarker(lines, pos, STRIP_START);
    if start.None? then Ok(lines[pos..])
    else
      var end := FirstMarker(lines, start.value + 1, STRIP_END);
      if end.None? then Err(UnclosedRegion)
      else Prefixed(lines[pos..start.value] + [""], StrippedFrom(lines, end.value + 1))
  }

  function Stripped(lines: seq<string>): Result<seq<string>, StripError>
  {
    StrippedFrom(lines, 0)
  }

  /** Prefixing twice prefixes with the concatenation. */
  lemma PrefixedTwice(a: seq<string>, b: seq<string>, r: Result<seq<string>, StripError>)
    ensures Prefixed(a, Prefixed(b, r)) == Prefixed(a + b, r)
  {
    if r.Ok? {
      assert a + (b + r.value) == a + b + r.value;
    }
  }

  /** The loop invariant of `StripRegions`: the text kept so far,
      followed by the rest stripped, is the whole text stripped. */
  ghost predicate StripInvariant(lines: seq<string>, startPos: nat, result: seq<string>)
  {
    startPos <= |lines| && Stripped(lines) == Prefixed(result, StrippedFrom(lines, startPos))
  }

  /** One round of `StripRegions` keeps its invariant: the lines before
      the start marker and an empty line are kept, and the scan goes on
      after the end marker. */
  lemma StripRound(lines: seq<string>, startPos: nat, result: seq<string>, sm: Option<nat>, em: Option<nat>)
    requires StripInvariant(lines, startPos, result)
    requires sm == FirstMarker(lines, startPos, STRIP_START) && sm.Some?
    requires em == FirstMarker(lines, sm.value + 1, STRIP_END) && em.Some?
    ensures StripInvariant(lines, em.value + 1, result + (lines[startPos..sm.value] + [""]))
  {
    StrippedFromRegion(lines, startPos, sm, em);
    PrefixedTwice(result, lines[startPos..sm.value] + [""], StrippedFrom(lines, em.value + 1));
  }

  /** `StrippedFrom` once both markers are found. */
  lemma StrippedFromRegion(lines: seq<string>, pos: nat, sm: Option<nat>, em: Option<nat>)
    requires pos <= |lines|
    requires sm == FirstMarker(lines, pos, STRIP_START) && sm.Some?
    requires em == FirstMarker(lines, sm.value + 1, STRIP_END) && em.Some?
    ensures StrippedFrom(lines, pos) == Prefixed(lines[pos..sm.value] + [""], StrippedFrom(lines, em.value + 1))
  {
  }

  /** A region that strips cleanly is closed, and what follows it strips
      cleanly too. */
  lemma StrippedOkRegion(lines: seq<string>, pos: nat, sm: Option<nat>, em: Option<nat>)
    requires pos <= |lines| && StrippedFrom(lines, pos).Ok?
    requires sm == FirstMarker(lines, pos, STRIP_START) && sm.Some?
    requires em == FirstMarker(lines, sm.value + 1, STRIP_END)
    ensures em.Some? && StrippedFrom(lines, em.value + 1).Ok?
    ensures StrippedFrom(lines, pos).value == lines[pos..sm.value] + [""] + StrippedFrom(lines, em.value + 1).value
  {
  }

  /** `StripRegions`. */
  method StripRegions(lines: seq<string>) returns (r: Result<seq<string>, StripError>)
    ensures r == Stripped(lines)
  {
    var startPos: nat := 0;
    var result: seq<string> := [];
    assert StripInvariant(lines, 0, []) by {
      if Stripped(lines).Ok? {
        assert [] + Stripped(lines).value == Stripped(lines).value;
      }
    }
    while true
      invariant StripInvariant(lines, startPos, result)
      decreases |lines| - startPos
    {
      var sm := FindMarker(lines, startPos, STRIP_START);
      if sm.None? {
        break;
      }
      var em := FindMarker(lines, sm.value + 1, STRIP_END);
      if em.None? {
        return Err(UnclosedRegion);
      }
      var piece := lines[startPos..sm.value] + [""];
      StripRound(lines, startPos, result, sm, em);
      result := result + piece;
      startPos := em.value + 1;
    }
    r := Ok(result + lines[startPos..]);
  }

  /** The empty line left for a region is not a marker. */
  lemma EmptyNotMarker(word: string)
    ensures !IsMarkerLine("", word)
  {
  }

  /** No start marker line is left after stripping. */
  lemma {:induction false} StrippedHasNoStart(lines: seq<string>, pos: nat)
    requires pos <= |lines| && StrippedFrom(lines, pos).Ok?
    ensures forall i :: 0 <= i < |StrippedFrom(lines, pos).value| ==>
      !IsMarkerLine(StrippedFrom(lines, pos).value[i], STRIP_START)
    decreases |lines| - pos
  {
    FirstMarkerIsFirst(lines, pos, STRIP_START);
    var start := FirstMarker(lines, pos, STRIP_START);
    if start.None? {
      NoMarkerSlice(lines, pos, |lines|, STRIP_START);
    } else {
      var em := FirstMarker(lines, start.value + 1, STRIP_END);
      StrippedOkRegion(lines, pos, start, em);
      var rest := StrippedFrom(lines, em.value + 1).value;
      StrippedHasNoStart(lines, em.value + 1);
      NoStartStep(lines, pos, start.value, rest);
    }
  }

  /** The step of `StrippedHasNoStart`: the lines before the region, the
      blank line left in its place, then the rest, stripped. */
  lemma NoStartStep(lines: seq<string>, pos: nat, start: nat, rest: seq<string>)
    requires pos <= start <= |lines|
    requires forall j :: pos <= j < start ==> !IsMarkerLine(lines[j], STRIP_START)
    requires forall i :: 0 <= i < |rest| ==> !IsMarkerLine(rest[i], STRIP_START)
    ensures var r := lines[pos..start] + [""] + rest;
      forall i :: 0 <= i < |r| ==> !IsMarkerLine(r[i], STRIP_START)
  {
    EmptyNotMarker(STRIP_START);
    NoMarkerSlice(lines, pos, start, STRIP_START);
    NoMarkerConcat(lines[pos..start], [""] + rest, STRIP_START);
    assert lines[pos..start] + [""] + rest == lines[pos..start] + ([""] + rest);
  }

  /** A run of non-marker lines, taken as a slice, has no marker line. */
  lemma NoMarkerSlice(lines: seq<string>, lo: nat, hi: nat, word: string)
    requires lo <= hi <= |lines|
    requires forall j :: lo <= j < hi ==> !IsMarkerLine(lines[j], word)
    ensures forall i :: 0 <= i < |lines[lo..hi]| ==> !IsMarkerLine(lines[lo..hi][i], word)
  {
    forall i | 0 <= i < |lines[lo..hi]|
      ensures !IsMarkerLine(lines[lo..hi][i], word)
    {
      assert lines[lo..hi][i] == lines[lo + i];
    }
  }

  /** Two pieces without a marker line make a whole without one. */
  lemma NoMarkerConcat(a: seq<string>, b: seq<string>, word: string)
    requires forall i :: 0 <= i < |a| ==> !IsMarkerLine(a[i], word)
    requires forall i :: 0 <= i < |b| ==> !IsMarkerLine(b[i], word)
    ensures forall i :: 0 <= i < |a + b| ==> !IsMarkerLine((a + b)[i], word)
  {
    forall i | 0 <= i < |a + b|
      ensures !IsMarkerLine((a + b)[i], word)
    {
      if i >= |a| {
        assert (a + b)[i] == b[i - |a|];
      }
    }
  }

  /** Text without a start marker line is left as it is, so stripping
      twice strips once. */
  lemma StrippedIdempotent(lines: seq<string>)
    requires Stripped(lines).Ok?
    ensures Stripped(Stripped(lines).value) == Stripped(lines)
  {
    StrippedHasNoStart(lines, 0);
    var out := Stripped(lines).value;
    FirstMarkerIsFirst(out, 0, STRIP_START);
    assert out[0..] == out;
  }
}
