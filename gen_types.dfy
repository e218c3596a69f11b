/** The generator's type model (bin/gen_types.py): qualifiers, primitive
    kinds, the type tree built from clang's types, the mangled name that
    names each type in generated code, the C spelling of a type, the
    names given to anonymous tags, and the memo that interns clang types. */
module GenTypes {
  import opened Wrappers
  import opened StrToLong

  // ---------------------------------------------------------------------
  // Qualifiers

  datatype Qualifiers = Qualifiers(isConst: bool, isVolatile: bool, isRestrict: bool)

  const NO_QUALIFIERS := Qualifiers(false, false, false)

  /** The letter the generator writes for `volatile`. */
  const VOLATILE_AS_WRITTEN: char := 'v'

  /** The letter the Itanium C++ ABI uses for `volatile`, whose other
      letters and codes the mangling follows. */
  const VOLATILE_LETTER: char := 'V'

  /** `Qualifiers.GetMangled`, with the letter written for `volatile`
      as a parameter. */
  function QualifiersMangledWith(q: Qualifiers, volatileLetter: char): string
  {
    (if q.isRestrict then "r" else "") + (if q.isVolatile then [volatileLetter] else "") +
    (if q.isConst then "K" else "")
  }

  /** `Qualifiers.GetMangled` as the generator writes it. */
  function QualifiersMangledAsWritten(q: Qualifiers): string
  {
    QualifiersMangledWith(q, VOLATILE_AS_WRITTEN)
  }

  /** `Qualifiers.GetMangled` with the ABI's letter for `volatile`. */
  function QualifiersMangled(q: Qualifiers): string
  {
    QualifiersMangledWith(q, VOLATILE_LETTER)
  }

  /** The place of a qualifier letter in the mangling order. */
  function LetterRank(c: char): int
  {
    if c == 'r' then 0 else if c == VOLATILE_LETTER then 1 else if c == 'K' then 2 else 3
  }

  /** The mangled qualifiers hold one letter per qualifier present, and
      the letters come in the fixed order restrict, volatile, const. */
  lemma QualifierLetters(q: Qualifiers)
    ensures var s := QualifiersMangled(q);
      ('r' in s <==> q.isRestrict) && (VOLATILE_LETTER in s <==> q.isVolatile) && ('K' in s <==> q.isConst) &&
      (forall i, j :: 0 <= i < j < |s| ==> LetterRank(s[i]) < LetterRank(s[j])) &&
      (forall i :: 0 <= i < |s| ==> LetterRank(s[i]) < 3)
  {
  }

  /** Different qualifiers mangle differently. */
  lemma QualifiersMangledInjective(q1: Qualifiers, q2: Qualifiers)
    requires QualifiersMangled(q1) == QualifiersMangled(q2)
    ensures q1 == q2
  {
    QualifierLetters(q1);
    QualifierLetters(q2);
  }

  /** `Qualifiers.GetCSpelling`: each present qualifier and a space, in
      the order const, volatile, restrict. */
  function QualifiersCSpelling(q: Qualifiers): string
  {
    (if q.isConst then "const " else "") + (if q.isVolatile then "volatile " else "") +
    (if q.isRestrict then "restrict " else "")
  }

  // ---------------------------------------------------------------------
  // Primitive kinds

  datatype PrimKind =
    | VOID | BOOL | CHAR_U | UCHAR | USHORT | UINT | ULONG | ULONGLONG
    | CHAR_S | SCHAR | WCHAR | SHORT | INT | LONG | LONGLONG
    | FLOAT | DOUBLE | LONGDOUBLE
  {
    /** `MANGLED_PRIMITIVE`. */
    function Code(): char
    {
      match this
      case VOID => 'v'
      case BOOL => 'b'
      case CHAR_U => 'c'
      case UCHAR => 'h'
      case USHORT => 't'
      case UINT => 'j'
      case ULONG => 'm'
      case ULONGLONG => 'y'
      case CHAR_S => 'c'
      case SCHAR => 'a'
      case WCHAR => 'w'
      case SHORT => 's'
      case INT => 'i'
      case LONG => 'l'
      case LONGLONG => 'x'
      case FLOAT => 'f'
      case DOUBLE => 'd'
      case LONGDOUBLE => 'e'
    }

    /** The C name of the kind, its `c_name`. */
    function CName(): string
    {
      match this
      case VOID => "void"
      case BOOL => "bool"
      case CHAR_U => "char"
      case UCHAR => "unsigned char"
      case USHORT => "unsigned short"
      case UINT => "unsigned int"
      case ULONG => "unsigned long"
      case ULONGLONG => "unsigned long long"
      case CHAR_S => "char"
      case SCHAR => "signed char"
      case WCHAR => "wchar_t"
      case SHORT => "short"
      case INT => "int"
      case LONG => "long"
      case LONGLONG => "long long"
      case FLOAT => "float"
      case DOUBLE => "double"
      case LONGDOUBLE => "long double"
    }
  }

  /** The kind a primitive code stands for; `c` is read as plain `char`
      of the signed flavour. */
  function KindOfCode(c: char): Option<PrimKind>
  {
    match c
    case 'v' => Some(VOID)
    case 'b' => Some(BOOL)
    case 'c' => Some(CHAR_S)
    case 'h' => Some(UCHAR)
    case 't' => Some(USHORT)
    case 'j' => Some(UINT)
    case 'm' => Some(ULONG)
    case 'y' => Some(ULONGLONG)
    case 'a' => Some(SCHAR)
    case 'w' => Some(WCHAR)
    case 's' => Some(SHORT)
    case 'i' => Some(INT)
    case 'l' => Some(LONG)
    case 'x' => Some(LONGLONG)
    case 'f' => Some(FLOAT)
    case 'd' => Some(DOUBLE)
    case 'e' => Some(LONGDOUBLE)
    case _ => None
  }

  /** Every primitive code reads back as its kind, except that the two
      flavours of plain `char` share the code `c`. */
  lemma PrimitiveCodeDecodes(k: PrimKind)
    ensures KindOfCode(k.Code()) == Some(if k == CHAR_U then CHAR_S else k)
  {
  }

  /** Two kinds share a code only when both are plain `char`. */
  lemma PrimitiveCodesDistinct(k1: PrimKind, k2: PrimKind)
    requires k1.Code() == k2.Code() && k1 != k2
    ensures {k1, k2} == {CHAR_S, CHAR_U}
  {
    PrimitiveCodeDecodes(k1);
    PrimitiveCodeDecodes(k2);
  }

  // ---------------------------------------------------------------------
  // Spellings with leading keywords removed

  /** `spelling.split(' ')`: the space-separated parts, at least one. */
  function Split(s: string): (parts: seq<string>)
    ensures |parts| >= 1
    ensures forall i :: 0 <= i < |parts| ==> ' ' !in parts[i]
  {
    if |s| == 0 then [""]
    else if s[0] == ' ' then [""] + Split(s[1..])
    else
      var rest := Split(s[1..]);
      [[s[0]] + rest[0]] + rest[1..]
  }

  /** `' '.join(parts)`. */
  function Join(parts: seq<string>): string
  {
    if |parts| == 0 then ""
    else if |parts| == 1 then parts[0]
    else parts[0] + " " + Join(parts[1..])
  }

  lemma {:induction false} JoinSplit(s: string)
    ensures Join(Split(s)) == s
  {
    if |s| > 0 {
      JoinSplit(s[1..]);
      var rest := Split(s[1..]);
      if s[0] == ' ' {
        assert s == " " + s[1..];
      } else {
        assert s == [s[0]] + s[1..];
        if |rest| > 1 {
          assert ([[s[0]] + rest[0]] + rest[1..])[1..] == rest[1..];
          assert Join(rest) == rest[0] + " " + Join(rest[1..]);
        }
      }
    }
  }

  /** Joining a tail of the parts gives a suffix of the joined whole. */
  lemma {:induction false} JoinSuffix(parts: seq<string>, k: nat)
    requires k < |parts|
    ensures exists pre: string :: Join(parts) == pre + Join(parts[k..])
  {
    if k == 0 {
      assert parts[0..] == parts;
      assert Join(parts) == "" + Join(parts[k..]);
    } else {
      JoinSuffix(parts[1..], k - 1);
      assert parts[1..][k - 1..] == parts[k..];
      var pre: string :| Join(parts[1..]) == pre + Join(parts[k..]);
      assert Join(parts) == (parts[0] + " " + pre) + Join(parts[k..]);
    }
  }

  /** The leading words `_BaseCindexSpelling` strips. */
  predicate IsPrefixWord(w: string)
  {
    w == "struct" || w == "union" || w == "enum" || w == "const" || w == "volatile" || w == "restrict"
  }

  /** The index `_LStripSpelling`'s loop stops at: the first part that is
      not a prefix word, or the last part when every part is one. */
  function FirstKept(parts: seq<string>, i: nat): (k: nat)
    requires i < |parts|
    ensures i <= k < |parts|
    ensures forall j :: i <= j < k ==> IsPrefixWord(parts[j])
    ensures !IsPrefixWord(parts[k]) || k == |parts| - 1
    decreases |parts| - i
  {
    if !IsPrefixWord(parts[i]) || i == |parts| - 1 then i else FirstKept(parts, i + 1)
  }

  /** `_BaseCindexSpelling`. */
  function BaseSpelling(s: string): string
  {
    var parts := Split(s);
    Join(parts[FirstKept(parts, 0)..])
  }

  /** The stripped spelling is what is left of the spelling after some
      leading part, and it starts with a word that is not a prefix word,
      unless only one word is left. */
  lemma BaseSpellingSuffix(s: string)
    ensures exists pre: string :: s == pre + BaseSpelling(s)
    ensures var parts := Split(BaseSpelling(s));
      !IsPrefixWord(parts[0]) || |parts| == 1
  {
    var parts := Split(s);
    var k := FirstKept(parts, 0);
    JoinSplit(s);
    JoinSuffix(parts, k);
    SplitJoin(parts[k..]);
    assert Split(BaseSpelling(s)) == parts[k..];
    assert parts[k..][0] == parts[k];
  }

  /** Stripping twice strips no more than stripping once. */
  lemma BaseSpellingIdempotent(s: string)
    ensures BaseSpelling(BaseSpelling(s)) == BaseSpelling(s)
  {
    var b := BaseSpelling(s);
    var parts := Split(s);
    SplitJoin(parts[FirstKept(parts, 0)..]);
    var again := Split(b);
    assert again == parts[FirstKept(parts, 0)..];
    assert FirstKept(again, 0) == 0;
    assert again[0..] == again;
  }

  /** Splitting a join of space-free parts gives the parts back. */
  lemma {:induction false} SplitJoin(parts: seq<string>)
    requires |parts| >= 1
    requires forall i :: 0 <= i < |parts| ==> ' ' !in parts[i]
    ensures Split(Join(parts)) == parts
  {
    if |parts| == 1 {
      SplitWord(parts[0], []);
    } else {
      SplitJoin(parts[1..]);
      SplitWord(parts[0], parts[1..]);
    }
  }

  /** A space-free word followed by a space and a join. */
  lemma {:induction false} SplitWord(w: string, rest: seq<string>)
    requires ' ' !in w
    requires |rest| >= 1 ==> Split(Join(rest)) == rest
    ensures |rest| == 0 ==> Split(w) == [w]
    ensures |rest| >= 1 ==> Split(w + " " + Join(rest)) == [w] + rest
  {
    if |w| == 0 {
      if |rest| >= 1 {
        assert ("" + " " + Join(rest))[1..] == Join(rest);
      }
    } else {
      SplitWord(w[1..], rest);
      assert w == [w[0]] + w[1..];
      if |rest| >= 1 {
        assert (w + " " + Join(rest))[1..] == w[1..] + " " + Join(rest);
        assert ([w[1..]] + rest)[0] == w[1..];
        assert ([w[1..]] + rest)[1..] == rest;
      }
    }
  }

  /** `_MangleName`: the name preceded by its length in decimal. */
  function MangleName(name: string): string
  {
    Digits(|name|) + name
  }

  /** Reads a length-prefixed name off the front of `s`. */
  function ParseName(s: string): (r: Option<(string, string)>)
    ensures r.Some? ==> |r.value.1| < |s|
  {
    var n := DigitRun(s);
    if n == 0 then None
    else
      var len := DecimalValue(s[..n]);
      if n + len > |s| then None else Some((s[n..n + len], s[n + len..]))
  }

  /** A name that does not start with a digit reads back from its
      mangling, whatever follows it. */
  lemma MangleNameRoundTrip(name: string, rest: string)
    requires |name| > 0 && !IsDigit(name[0])
    ensures ParseName(MangleName(name) + rest) == Some((name, rest))
  {
    var d := Digits(|name|);
    var s := MangleName(name) + rest;
    assert s == d + (name + rest);
    DigitRunPrefix(d, name + rest);
    assert s[..|d|] == d;
    assert s[|d|..|d| + |name|] == name;
    assert s[|d| + |name|..] == rest;
  }

  /** The digit run of digits followed by a non-digit stops there. */
  lemma {:induction false} DigitRunPrefix(d: string, rest: string)
    requires AllDigits(d)
    requires |rest| > 0 && !IsDigit(rest[0])
    ensures DigitRun(d + rest) == |d|
  {
    if |d| > 0 {
      assert (d + rest)[1..] == d[1..] + rest;
      DigitRunPrefix(d[1..], rest);
    } else {
      assert d + rest == rest;
    }
  }

  // ---------------------------------------------------------------------
  // The type tree and its mangled names

  /** The two tag kinds that may be anonymous. */
  datatype TagKind = RecordTag | EnumTag
  {
    /** The kind name, lower-cased, as it appears in anonymous names. */
    function Name(): string
    {
      match this
      case RecordTag => "record"
      case EnumTag => "enum"
    }
  }

  /** The tag of a struct, union or enum: the name the JavaScript side
      uses, the name C uses, and whether the declaration has no name. */
  datatype Tag = Tag(jsTag: string, cTag: string, isAnonymous: bool)

  /** A type as the generator builds it from clang's type. The fields of
      a record are not part of its mangled name or its C spelling and are
      kept out of this tree; the collector sees them as children. */
  datatype GType =
    | Primitive(kind: PrimKind, quals: Qualifiers)
    | Pointer(pointee: GType, quals: Qualifiers)
    | Record(tag: Tag, isUnion: bool, quals: Qualifiers)
    | Enum(tag: Tag, quals: Qualifiers)
    | Typedef(name: string, alias: GType, quals: Qualifiers)
    | FunctionNoProto(result: GType, quals: Qualifiers)
    | Function(result: GType, args: seq<GType>, isVariadic: bool, quals: Qualifiers)
    | ConstantArray(element: GType, size: nat, quals: Qualifiers)
    | IncompleteArray(element: GType, quals: Qualifiers)

  /** `GetMangled` of every type class, with the letter written for
      `volatile` as a parameter. Function types carry no qualifier
      prefix. */
  function MangledWith(t: GType, v: char): string
  {
    match t
    case Primitive(k, q) => QualifiersMangledWith(q, v) + [k.Code()]
    case Pointer(p, q) => QualifiersMangledWith(q, v) + "P" + MangledWith(p, v)
    case Record(tag, _, q) => QualifiersMangledWith(q, v) + MangleName(tag.jsTag)
    case Enum(tag, q) => QualifiersMangledWith(q, v) + MangleName(tag.jsTag)
    case Typedef(name, _, q) => QualifiersMangledWith(q, v) + MangleName(name)
    case FunctionNoProto(r, _) => "F" + MangledWith(r, v) + "E"
    case Function(r, args, variadic, _) =>
      "F" + MangledWith(r, v) + (if |args| > 0 then MangledListWith(args, v) else "v") +
      (if variadic then "z" else "") + "E"
    case ConstantArray(e, n, q) => QualifiersMangledWith(q, v) + "A" + Digits(n) + "_" + MangledWith(e, v)
    case IncompleteArray(e, q) => QualifiersMangledWith(q, v) + "P" + MangledWith(e, v)
  }

  /** The mangled names of the types, one after the other. */
  function MangledListWith(ts: seq<GType>, v: char): string
  {
    if |ts| == 0 then "" else MangledWith(ts[0], v) + MangledListWith(ts[1..], v)
  }

  /** The mangled name as the generator writes it. */
  function MangledAsWritten(t: GType): string
  {
    MangledWith(t, VOLATILE_AS_WRITTEN)
  }

  /** The mangled name with the ABI's letter for `volatile`. */
  function Mangled(t: GType): string
  {
    MangledWith(t, VOLATILE_LETTER)
  }

  /** What a mangled name keeps of a type: the signedness of plain `char`,
      the difference between a pointer and an array of unknown size, the
      kind of a named type and the qualifiers of a function type are all
      lost. */
  datatype Shape =
    | SPrimitive(kind: PrimKind, quals: Qualifiers)
    | SPointer(pointee: Shape, quals: Qualifiers)
    | SNamed(name: string, quals: Qualifiers)
    | SFunctionNoProto(result: Shape)
    | SFunction(result: Shape, args: seq<Shape>, isVariadic: bool)
    | SArray(element: Shape, size: nat, quals: Qualifiers)

  function ShapeOf(t: GType): Shape
  {
    match t
    case Primitive(k, q) => SPrimitive(if k == CHAR_U then CHAR_S else k, q)
    case Pointer(p, q) => SPointer(ShapeOf(p), q)
    case Record(tag, _, q) => SNamed(tag.jsTag, q)
    case Enum(tag, q) => SNamed(tag.jsTag, q)
    case Typedef(name, _, q) => SNamed(name, q)
    case FunctionNoProto(r, _) => SFunctionNoProto(ShapeOf(r))
    case Function(r, args, variadic, _) => SFunction(ShapeOf(r), ShapesOf(args), variadic)
    case ConstantArray(e, n, q) => SArray(ShapeOf(e), n, q)
    case IncompleteArray(e, q) => SPointer(ShapeOf(e), q)
  }

  function ShapesOf(ts: seq<GType>): seq<Shape>
  {
    if |ts| == 0 then [] else [ShapeOf(ts[0])] + ShapesOf(ts[1..])
  }

  /** A name as C spells it: not empty, and not starting with a digit. */
  predicate IsIdentifierLike(n: string)
  {
    |n| > 0 && !IsDigit(n[0])
  }

  /** The types whose mangled names can be read back: every name is
      identifier-like and no parameter is `void` (C spells an empty
      parameter list `(void)`, which clang reports as no parameters). */
  predicate Demanglable(t: GType)
  {
    match t
    case Primitive(_, _) => true
    case Pointer(p, _) => Demanglable(p)
    case Record(tag, _, _) => IsIdentifierLike(tag.jsTag)
    case Enum(tag, _) => IsIdentifierLike(tag.jsTag)
    case Typedef(name, _, _) => IsIdentifierLike(name)
    case FunctionNoProto(r, _) => Demanglable(r)
    case Function(r, args, _, _) => Demanglable(r) && DemanglableArgs(args)
    case ConstantArray(e, _, _) => Demanglable(e)
    case IncompleteArray(e, _) => Demanglable(e)
  }

  predicate DemanglableArgs(ts: seq<GType>)
  {
    |ts| > 0 ==> !(ts[0].Primitive? && ts[0].kind == VOID) && Demanglable(ts[0]) && DemanglableArgs(ts[1..])
  }

  /** Reads the qualifier letters off the front of a mangled name. */
  function ParseQualifiers(s: string): (r: (Qualifiers, string))
    ensures |r.1| <= |s|
  {
    var (restrict, s1) := StripLetter(s, 'r');
    var (volatile, s2) := StripLetter(s1, VOLATILE_LETTER);
    var (isConst, s3) := StripLetter(s2, 'K');
    (Qualifiers(isConst, volatile, restrict), s3)
  }

  /** Reads the letter `c` off the front of `s` when it is there. */
  function StripLetter(s: string, c: char): (r: (bool, string))
    ensures r.0 <==> |s| > 0 && s[0] == c
    ensures |r.1| <= |s|
  {
    if |s| > 0 && s[0] == c then (true, s[1..]) else (false, s)
  }

  /** An optional letter reads back when something else follows it. */
  lemma StripLetterReads(present: bool, c: char, s: string)
    requires |s| > 0 && s[0] != c
    ensures StripLetter((if present then [c] else "") + s, c) == (present, s)
  {
    if present {
      assert ([c] + s)[1..] == s;
    } else {
      assert "" + s == s;
    }
  }

  /** Reads one mangled type off the front of `s`: the reference that the
      mangling is checked against. */
  function Demangle(s: string): (r: Option<(Shape, string)>)
    ensures r.Some? ==> |r.value.1| < |s|
    decreases |s|, 3
  {
    var (q, s1) := ParseQualifiers(s);
    if |s1| == 0 then None else DemangleKind(q, s1[0], s1[1..])
  }

  /** Reads the type that starts with the code `c`, after its
      qualifiers `q`. */
  function DemangleKind(q: Qualifiers, c: char, s: string): (r: Option<(Shape, string)>)
    ensures r.Some? ==> |r.value.1| <= |s|
    decreases |s| + 1, 2
  {
    if c == 'P' then
      match Demangle(s)
      case None => None
      case Some((p, rest)) => Some((SPointer(p, q), rest))
    else if c == 'A' then DemangleArray(q, s)
    else if IsDigit(c) then
      match ParseName([c] + s)
      case None => None
      case Some((name, rest)) => Some((SNamed(name, q), rest))
    else if c == 'F' then DemangleFunction(s)
    else
      match KindOfCode(c)
      case None => None
      case Some(k) => Some((SPrimitive(k, q), s))
  }

  /** Reads the size, the `_` and the element type of an array. */
  function DemangleArray(q: Qualifiers, s: string): (r: Option<(Shape, string)>)
    ensures r.Some? ==> |r.value.1| < |s|
    decreases |s|, 3
  {
    var n := DigitRun(s);
    if n == 0 || n == |s| || s[n] != '_' then None
    else
      match Demangle(s[n + 1..])
      case None => None
      case Some((e, rest)) => Some((SArray(e, DecimalValue(s[..n]), q), rest))
  }

  /** Reads the rest of a function type after its `F`. */
  function DemangleFunction(s: string): (r: Option<(Shape, string)>)
    ensures r.Some? ==> |r.value.1| < |s|
    decreases |s|, 4
  {
    match Demangle(s)
    case None => None
    case Some((result, s1)) =>
      if |s1| == 0 then None
      else if s1[0] == 'E' then Some((SFunctionNoProto(result), s1[1..]))
      else if s1[0] == 'v' then FunctionEnd(result, [], s1[1..])
      else
        match DemangleArgs(s1)
        case None => None
        case Some((args, s2)) => FunctionEnd(result, args, s2)
  }

  /** Reads the optional variadic mark and the closing `E`. */
  function FunctionEnd(result: Shape, args: seq<Shape>, s: string): (r: Option<(Shape, string)>)
    ensures r.Some? ==> |r.value.1| < |s|
  {
    if |s| >= 2 && s[0] == 'z' && s[1] == 'E' then Some((SFunction(result, args, true), s[2..]))
    else if |s| >= 1 && s[0] == 'E' then Some((SFunction(result, args, false), s[1..]))
    else None
  }

  /** Reads parameter types up to the variadic mark or the closing `E`. */
  function DemangleArgs(s: string): (r: Option<(seq<Shape>, string)>)
    ensures r.Some? ==> |r.value.1| <= |s|
    decreases |s|, 5
  {
    if |s| == 0 then None
    else if s[0] == 'z' || s[0] == 'E' then Some(([], s))
    else
      match Demangle(s)
      case None => None
      case Some((t, s1)) =>
        match DemangleArgs(s1)
        case None => None
        case Some((ts, s2)) => Some(([t] + ts, s2))
  }

  /** The qualifier prefix reads back when a type code follows it. */
  lemma QualifiersRead(q: Qualifiers, s: string)
    requires |s| > 0 && s[0] != 'r' && s[0] != VOLATILE_LETTER && s[0] != 'K'
    ensures ParseQualifiers(QualifiersMangled(q) + s) == (q, s)
  {
    var c := (if q.isConst then "K" else "") + s;
    var vc := (if q.isVolatile then [VOLATILE_LETTER] else "") + c;
    var all := (if q.isRestrict then "r" else "") + vc;
    assert QualifiersMangled(q) + s == all;
    StripLetterReads(q.isConst, 'K', s);
    assert c[0] == 'K' || c[0] == s[0];
    StripLetterReads(q.isVolatile, VOLATILE_LETTER, c);
    assert vc[0] == VOLATILE_LETTER || vc[0] == c[0];
    StripLetterReads(q.isRestrict, 'r', vc);
  }

  /** A mangled name is never empty and never starts with the letters
      that close a parameter list; only `void` starts with `v`. */
  lemma MangledHead(t: GType)
    ensures var m := Mangled(t);
      |m| > 0 && m[0] != 'E' && m[0] != 'z' && (m[0] == 'v' ==> t.Primitive? && t.kind == VOID)
  {
    var q := t.quals;
    var m := Mangled(t);
    if QualifiersMangled(q) != "" {
      assert m[0] == QualifiersMangled(q)[0] || t.FunctionNoProto? || t.Function?;
    }
  }

  /** A mangled type reads back as its shape, whatever follows it. */
  lemma {:induction false} DemangleMangled(t: GType, rest: string)
    requires Demanglable(t)
    ensures Demangle(Mangled(t) + rest) == Some((ShapeOf(t), rest))
    decreases t, 1
  {
    MangledSplit(t, rest);
    match t
    case Primitive(k, q) =>
      PrimitiveCodeDecodes(k);
      PrimitiveReads(k, q, rest);
    case Pointer(p, q) =>
      DemangleMangled(p, rest);
      PointerReads(q, Mangled(p) + rest, ShapeOf(p), rest);
    case Record(tag, _, q) =>
      NamedReads(tag.jsTag, q, rest);
    case Enum(tag, q) =>
      NamedReads(tag.jsTag, q, rest);
    case Typedef(name, _, q) =>
      NamedReads(name, q, rest);
    case FunctionNoProto(r, _) =>
      DemangleMangled(r, "E" + rest);
      NoProtoReads(Mangled(r) + ("E" + rest), ShapeOf(r), rest);
    case Function(r, args, variadic, q) =>
      FunctionMangledReads(r, args, variadic, q, rest);
    case ConstantArray(e, n, q) =>
      DemangleMangled(e, rest);
      ArrayReads(q, n, Mangled(e) + rest, ShapeOf(e), rest);
    case IncompleteArray(e, q) =>
      DemangleMangled(e, rest);
      PointerReads(q, Mangled(e) + rest, ShapeOf(e), rest);
  }

  /** The mangled name of each kind of type, with what follows it. */
  lemma MangledSplit(t: GType, rest: string)
    ensures match t
      case Primitive(k, q) => Mangled(t) + rest == QualifiersMangled(q) + ([k.Code()] + rest)
      case Pointer(p, q) => Mangled(t) + rest == QualifiersMangled(q) + ("P" + (Mangled(p) + rest))
      case Record(tag, _, q) => Mangled(t) + rest == QualifiersMangled(q) + (MangleName(tag.jsTag) + rest)
      case Enum(tag, q) => Mangled(t) + rest == QualifiersMangled(q) + (MangleName(tag.jsTag) + rest)
      case Typedef(name, _, q) => Mangled(t) + rest == QualifiersMangled(q) + (MangleName(name) + rest)
      case FunctionNoProto(r, _) => Mangled(t) + rest == "F" + (Mangled(r) + ("E" + rest))
      case Function(r, args, variadic, _) =>
        Mangled(t) + rest == "F" + (Mangled(r) + ((if |args| > 0 then MangledListWith(args, VOLATILE_LETTER) else "v") +
          ((if variadic then "z" else "") + "E" + rest)))
      case ConstantArray(e, n, q) => Mangled(t) + rest == QualifiersMangled(q) + ("A" + (Digits(n) + ("_" + (Mangled(e) + rest))))
      case IncompleteArray(e, q) => Mangled(t) + rest == QualifiersMangled(q) + ("P" + (Mangled(e) + rest))
  {
    match t
    case Primitive(k, q) =>
      Concat3(QualifiersMangled(q), [k.Code()], rest);
    case Pointer(p, q) =>
      Concat4(QualifiersMangled(q), "P", Mangled(p), rest);
    case Record(tag, _, q) =>
      Concat3(QualifiersMangled(q), MangleName(tag.jsTag), rest);
    case Enum(tag, q) =>
      Concat3(QualifiersMangled(q), MangleName(tag.jsTag), rest);
    case Typedef(name, _, q) =>
      Concat3(QualifiersMangled(q), MangleName(name), rest);
    case FunctionNoProto(r, _) =>
      Concat4("F", Mangled(r), "E", rest);
    case Function(r, args, variadic, _) =>
      var params := if |args| > 0 then MangledListWith(args, VOLATILE_LETTER) else "v";
      var z := if variadic then "z" else "";
      Concat4(z, "E", rest, "");
      Concat6("F", Mangled(r), params, z, "E", rest);
    case ConstantArray(e, n, q) =>
      Concat6(QualifiersMangled(q), "A", Digits(n), "_", Mangled(e), rest);
    case IncompleteArray(e, q) =>
      Concat4(QualifiersMangled(q), "P", Mangled(e), rest);
  }

  lemma Concat3(a: string, b: string, c: string)
    ensures (a + b) + c == a + (b + c)
  {
  }

  lemma Concat4(a: string, b: string, c: string, d: string)
    ensures a + b + c + d == a + (b + (c + d))
  {
  }

  lemma Concat6(a: string, b: string, c: string, d: string, e: string, f: string)
    ensures a + b + c + d + e + f == a + (b + (c + (d + e + f)))
  {
  }

  lemma {:induction false} FunctionMangledReads(r: GType, args: seq<GType>, variadic: bool, q: Qualifiers, rest: string)
    requires Demanglable(Function(r, args, variadic, q))
    ensures Demangle(Mangled(Function(r, args, variadic, q)) + rest) ==
      Some((SFunction(ShapeOf(r), ShapesOf(args), variadic), rest))
    decreases Function(r, args, variadic, q), 0
  {
    var close := (if variadic then "z" else "") + "E" + rest;
    var params := if |args| > 0 then MangledListWith(args, VOLATILE_LETTER) else "v";
    MangledSplit(Function(r, args, variadic, q), rest);
    DemangleMangled(r, params + close);
    if |args| > 0 {
      DemangleMangledArgs(args, close);
      ParamsHead(args);
    }
    FunctionReads(Mangled(r) + (params + close), ShapeOf(r), params, ShapesOf(args), variadic, rest);
  }

  /** Parameters do not start with the letters that mark an empty
      parameter list or its end. */
  lemma ParamsHead(args: seq<GType>)
    requires |args| > 0 && DemanglableArgs(args)
    ensures var params := MangledListWith(args, VOLATILE_LETTER);
      |params| > 0 && params != "v" && params[0] != 'v' && params[0] != 'E'
  {
    MangledHead(args[0]);
    var params := MangledListWith(args, VOLATILE_LETTER);
    assert params == Mangled(args[0]) + MangledListWith(args[1..], VOLATILE_LETTER);
    assert params[0] == Mangled(args[0])[0];
  }

  /** After its qualifiers, a mangled name is read by its type code. */
  lemma KindReads(q: Qualifiers, c: char, s: string)
    requires c != 'r' && c != VOLATILE_LETTER && c != 'K'
    ensures Demangle(QualifiersMangled(q) + ([c] + s)) == DemangleKind(q, c, s)
  {
    QualifiersRead(q, [c] + s);
    assert ([c] + s)[0] == c && ([c] + s)[1..] == s;
  }

  lemma PrimitiveReads(k: PrimKind, q: Qualifiers, rest: string)
    requires KindOfCode(k.Code()).Some?
    ensures Demangle(QualifiersMangled(q) + ([k.Code()] + rest)) == Some((SPrimitive(KindOfCode(k.Code()).value, q), rest))
  {
    var c := k.Code();
    CodeLetter(c);
    KindReads(q, c, rest);
    assert DemangleKind(q, c, rest) == Some((SPrimitive(KindOfCode(c).value, q), rest));
  }

  /** A primitive code is none of the letters that start a qualifier or
      another kind of type. */
  lemma CodeLetter(c: char)
    requires KindOfCode(c).Some?
    ensures c != 'r' && c != VOLATILE_LETTER && c != 'K' && c != 'P' && c != 'A' && c != 'F' && !IsDigit(c)
  {
  }

  lemma PointerReads(q: Qualifiers, tail: string, shape: Shape, rest: string)
    requires Demangle(tail) == Some((shape, rest))
    ensures Demangle(QualifiersMangled(q) + ("P" + tail)) == Some((SPointer(shape, q), rest))
  {
    KindReads(q, 'P', tail);
  }

  lemma ArrayReads(q: Qualifiers, n: nat, tail: string, shape: Shape, rest: string)
    requires Demangle(tail) == Some((shape, rest))
    ensures Demangle(QualifiersMangled(q) + ("A" + (Digits(n) + ("_" + tail)))) == Some((SArray(shape, n, q), rest))
  {
    KindReads(q, 'A', Digits(n) + ("_" + tail));
    ArrayBodyReads(q, n, tail, shape, rest);
  }

  /** The size, the `_` and the element type read back. */
  lemma ArrayBodyReads(q: Qualifiers, n: nat, tail: string, shape: Shape, rest: string)
    requires Demangle(tail) == Some((shape, rest))
    ensures DemangleArray(q, Digits(n) + ("_" + tail)) == Some((SArray(shape, n, q), rest))
  {
    var d := Digits(n);
    var after := d + ("_" + tail);
    DigitRunPrefix(d, "_" + tail);
    assert after[..|d|] == d && after[|d|] == '_';
    assert after[|d| + 1..] == tail;
  }

  lemma NoProtoReads(tail: string, shape: Shape, rest: string)
    requires Demangle(tail) == Some((shape, "E" + rest))
    ensures Demangle("F" + tail) == Some((SFunctionNoProto(shape), rest))
  {
    assert ParseQualifiers("F" + tail) == (NO_QUALIFIERS, "F" + tail);
    assert ("F" + tail)[1..] == tail;
    assert Demangle("F" + tail) == DemangleKind(NO_QUALIFIERS, 'F', tail) == DemangleFunction(tail);
    assert ("E" + rest)[1..] == rest;
  }

  lemma FunctionReads(tail: string, shape: Shape, params: string, args: seq<Shape>, variadic: bool, rest: string)
    requires var close := (if variadic then "z" else "") + "E" + rest;
      Demangle(tail) == Some((shape, params + close)) &&
      (params == "v" ==> args == []) &&
      (params != "v" ==>
        |params| > 0 && params[0] != 'v' && params[0] != 'E' && DemangleArgs(params + close) == Some((args, close)))
    ensures Demangle("F" + tail) == Some((SFunction(shape, args, variadic), rest))
  {
    var close := (if variadic then "z" else "") + "E" + rest;
    assert ParseQualifiers("F" + tail) == (NO_QUALIFIERS, "F" + tail);
    assert ("F" + tail)[1..] == tail;
    assert Demangle("F" + tail) == DemangleKind(NO_QUALIFIERS, 'F', tail) == DemangleFunction(tail);
    CloseReads(shape, args, variadic, rest);
    if params == "v" {
      assert (params + close)[0] == 'v';
      assert (params + close)[1..] == close;
    } else {
      assert (params + close)[0] == params[0];
    }
  }

  /** The variadic mark and the closing `E` read back. */
  lemma CloseReads(shape: Shape, args: seq<Shape>, variadic: bool, rest: string)
    ensures FunctionEnd(shape, args, (if variadic then "z" else "") + "E" + rest) ==
      Some((SFunction(shape, args, variadic), rest))
  {
    var close := (if variadic then "z" else "") + "E" + rest;
    if variadic {
      assert close[2..] == rest;
    } else {
      assert close[1..] == rest;
    }
  }

  /** A length-prefixed name reads back after its qualifiers. */
  lemma NamedReads(name: string, q: Qualifiers, rest: string)
    requires IsIdentifierLike(name)
    ensures Demangle(QualifiersMangled(q) + (MangleName(name) + rest)) == Some((SNamed(name, q), rest))
  {
    var tail := MangleName(name) + rest;
    assert tail[0] == Digits(|name|)[0];
    QualifiersRead(q, tail);
    assert [tail[0]] + tail[1..] == tail;
    MangleNameRoundTrip(name, rest);
  }

  /** Mangled parameters read back up to the variadic mark or the `E`. */
  lemma {:induction false} DemangleMangledArgs(ts: seq<GType>, rest: string)
    requires DemanglableArgs(ts)
    requires |rest| > 0 && (rest[0] == 'z' || rest[0] == 'E')
    ensures DemangleArgs(MangledListWith(ts, VOLATILE_LETTER) + rest) == Some((ShapesOf(ts), rest))
    decreases ts, 0
  {
    if |ts| == 0 {
      assert MangledListWith(ts, VOLATILE_LETTER) + rest == rest;
    } else {
      var tail := MangledListWith(ts[1..], VOLATILE_LETTER) + rest;
      assert MangledListWith(ts, VOLATILE_LETTER) + rest == Mangled(ts[0]) + tail;
      MangledHead(ts[0]);
      DemangleMangled(ts[0], tail);
      DemangleMangledArgs(ts[1..], rest);
    }
  }

  /** Two demanglable types with the same mangled name have the same
      shape: the mangling tells apart every two types that differ in
      anything but what `Shape` leaves out. */
  lemma MangledDeterminesShape(t1: GType, t2: GType)
    requires Demanglable(t1) && Demanglable(t2)
    requires Mangled(t1) == Mangled(t2)
    ensures ShapeOf(t1) == ShapeOf(t2)
  {
    DemangleMangled(t1, "");
    DemangleMangled(t2, "");
    assert Mangled(t1) + "" == Mangled(t2) + "";
  }

  /** `void f(void *, int)`: the first of two functions whose mangled
      names collide as written. */
  function VoidPointerAndInt(): GType
  {
    Function(Primitive(VOID, NO_QUALIFIERS),
      [Pointer(Primitive(VOID, NO_QUALIFIERS), NO_QUALIFIERS), Primitive(INT, NO_QUALIFIERS)], false, NO_QUALIFIERS)
  }

  /** `void f(volatile int *)`: the second. */
  function VolatileIntPointer(): GType
  {
    Function(Primitive(VOID, NO_QUALIFIERS),
      [Pointer(Primitive(INT, Qualifiers(false, true, false)), NO_QUALIFIERS)], false, NO_QUALIFIERS)
  }

  /** As written, `volatile` and `void` share the letter `v`, so the two
      functions above, which differ, get the same mangled name. */
  lemma VolatileCollidesWithVoid()
    ensures Demanglable(VoidPointerAndInt()) && Demanglable(VolatileIntPointer())
    ensures ShapeOf(VoidPointerAndInt()) != ShapeOf(VolatileIntPointer())
    ensures MangledAsWritten(VoidPointerAndInt()) == MangledAsWritten(VolatileIntPointer()) == "FvPviE"
  {
    var args1 := VoidPointerAndInt().args;
    var args2 := VolatileIntPointer().args;
    assert args1[1..][1..] == [] && args2[1..] == [];
    assert MangledListWith(args1[1..], VOLATILE_AS_WRITTEN) == "i";
    assert MangledListWith(args1, VOLATILE_AS_WRITTEN) == "Pvi";
    assert MangledListWith(args2, VOLATILE_AS_WRITTEN) == "Pvi";
    assert |ShapesOf(args1[1..])| == 1;
    assert |ShapesOf(args1)| == 2 && |ShapesOf(args2)| == 1;
  }

  /** With the ABI's letter the two get different names. */
  lemma VolatileLetterSeparates()
    ensures Mangled(VoidPointerAndInt()) == "FvPviE" && Mangled(VolatileIntPointer()) == "FvPViE"
  {
    var args1 := VoidPointerAndInt().args;
    var args2 := VolatileIntPointer().args;
    assert args1[1..][1..] == [] && args2[1..] == [];
    assert MangledListWith(args1[1..], VOLATILE_LETTER) == "i";
    assert MangledListWith(args1, VOLATILE_LETTER) == "Pvi";
    assert MangledListWith(args2, VOLATILE_LETTER) == "PVi";
  }

  // ---------------------------------------------------------------------
  // C spellings

  /** `SPELLING_PRECEDENCE`, with 0 for the kinds that have none. */
  function Precedence(t: GType): nat
  {
    match t
    case Pointer(_, _) => 1
    case ConstantArray(_, _, _) => 2
    case IncompleteArray(_, _) => 3
    case Function(_, _, _, _) => 3
    case FunctionNoProto(_, _) => 3
    case _ => 0
  }

  /** The declarator after a type name, when there is one. */
  function Declarator(name: string): string
  {
    if name != "" then " " + name else ""
  }

  /** `', '.join(parts)`. */
  function JoinComma(parts: seq<string>): string
  {
    if |parts| == 0 then ""
    else if |parts| == 1 then parts[0]
    else parts[0] + ", " + JoinComma(parts[1..])
  }

  /** `Type.GetCSpelling(name, last_kind)`: the C declaration of `name`
      with type `t`, inside a declarator of precedence `lastPrec` (0 at
      the top). An empty name stands for no name. `keepArray` says
      whether an array of unknown size keeps what its element spells;
      the generator drops it. */
  function SpellingWith(t: GType, name: string, lastPrec: nat, keepArray: bool): string
  {
    var spelling := QualifiersCSpelling(t.quals);
    var prec := Precedence(t);
    var inner := if prec > 0 && lastPrec > 0 && prec > lastPrec then "(" + name + ")" else name;
    match t
    case Primitive(k, _) => spelling + k.CName() + Declarator(name)
    case Typedef(n, _, _) => spelling + n + Declarator(inner)
    case Pointer(p, _) => SpellingWith(p, "*" + spelling + inner, 1, keepArray)
    case Enum(tag, _) => spelling + (if tag.isAnonymous then "" else "enum ") + tag.cTag + Declarator(inner)
    case Record(tag, isUnion, _) =>
      spelling + (if tag.isAnonymous then "" else if isUnion then "union " else "struct ") + tag.cTag + Declarator(inner)
    case ConstantArray(e, n, _) => SpellingWith(e, inner + ("[" + Digits(n) + "]"), 2, keepArray)
    case IncompleteArray(e, _) => if keepArray then SpellingWith(e, inner + "[]", 3, keepArray) else spelling
    case Function(r, args, variadic, _) =>
      SpellingWith(r, inner + ("(" + ParamsSpelling(args, variadic, keepArray) + ")"), 3, keepArray)
    case FunctionNoProto(r, _) => SpellingWith(r, inner + "()", 3, keepArray)
  }

  /** The parameter list of a prototype: the parameters and `...`, or
      `void` when there are no parameters. */
  function ParamsSpelling(args: seq<GType>, variadic: bool, keepArray: bool): string
    decreases args, 1
  {
    if |args| > 0 then JoinComma(SpellingsWith(args, keepArray) + (if variadic then ["..."] else [])) else "void"
  }

  /** The unnamed spelling of each parameter. */
  function SpellingsWith(ts: seq<GType>, keepArray: bool): seq<string>
    decreases ts, 0
  {
    if |ts| == 0 then [] else [SpellingWith(ts[0], "", 0, keepArray)] + SpellingsWith(ts[1..], keepArray)
  }

  /** `GetCSpelling` as the generator writes it. */
  function CSpellingAsWritten(t: GType, name: string): string
  {
    SpellingWith(t, name, 0, false)
  }

  /** `GetCSpelling` with arrays of unknown size spelled like the other
      arrays. */
  function CSpelling(t: GType, name: string): string
  {
    SpellingWith(t, name, 0, true)
  }

  /** `w` occurs in `s`. */
  ghost predicate Contains(s: string, w: string)
  {
    exists pre: string, post: string :: s == pre + w + post
  }

  lemma Regroup(a: string, b: string, c: string, d: string, e: string)
    ensures a + (b + c + d) + e == (a + b) + c + (d + e)
  {
  }

  /** The declarator name survives in the corrected spelling: whatever
      the type, the name it declares is written out. */
  lemma SpellingKeepsName(t: GType, name: string)
    ensures Contains(CSpelling(t, name), name)
  {
    var pre, post := SpellingSplit(t, name, 0);
  }

  /** Where the name sits in the corrected spelling. */
  lemma {:induction false} SpellingSplit(t: GType, name: string, lastPrec: nat) returns (pre: string, post: string)
    ensures SpellingWith(t, name, lastPrec, true) == pre + name + post
    decreases t
  {
    if Precedence(t) == 0 {
      pre, post := LeafSplit(t, name, lastPrec);
      return;
    }
    var open, close := Wrapping(t, lastPrec, name);
    var inner := open + name + close;
    match t
    case Pointer(p, q) =>
      var star := "*" + QualifiersCSpelling(q);
      assert SpellingWith(t, name, lastPrec, true) == SpellingWith(p, star + inner, 1, true);
      Assoc(star, open + name, close);
      Assoc(star, open, name);
      var p1, q1 := SpellingSplit(p, (star + open) + name + close, 1);
      pre, post := Inside(p1, star + open, name, close, q1);
    case ConstantArray(e, n, _) =>
      var suffix := "[" + Digits(n) + "]";
      assert SpellingWith(t, name, lastPrec, true) == SpellingWith(e, inner + suffix, 2, true);
      var p1, q1 := SpellingSplit(e, inner + suffix, 2);
      Assoc(open + name, close, suffix);
      pre, post := Inside(p1, open, name, close + suffix, q1);
    case IncompleteArray(e, _) =>
      assert SpellingWith(t, name, lastPrec, true) == SpellingWith(e, inner + "[]", 3, true);
      var p1, q1 := SpellingSplit(e, inner + "[]", 3);
      Assoc(open + name, close, "[]");
      pre, post := Inside(p1, open, name, close + "[]", q1);
    case Function(r, args, variadic, _) =>
      var suffix := "(" + ParamsSpelling(args, variadic, true) + ")";
      assert SpellingWith(t, name, lastPrec, true) == SpellingWith(r, inner + suffix, 3, true);
      var p1, q1 := SpellingSplit(r, inner + suffix, 3);
      Assoc(open + name, close, suffix);
      pre, post := Inside(p1, open, name, close + suffix, q1);
    case FunctionNoProto(r, _) =>
      assert SpellingWith(t, name, lastPrec, true) == SpellingWith(r, inner + "()", 3, true);
      var p1, q1 := SpellingSplit(r, inner + "()", 3);
      Assoc(open + name, close, "()");
      pre, post := Inside(p1, open, name, close + "()", q1);
  }

  /** The kinds without a declarator of their own write the type name,
      then the name. */
  lemma LeafSplit(t: GType, name: string, lastPrec: nat) returns (pre: string, post: string)
    requires Precedence(t) == 0
    ensures SpellingWith(t, name, lastPrec, true) == pre + name + post
  {
    var open, close := Wrapping(t, lastPrec, name);
    match t
    case Primitive(k, q) =>
      if name == "" {
        pre, post := SpellingWith(t, name, lastPrec, true), "";
      } else {
        pre, post := QualifiersCSpelling(q) + k.CName() + " ", "";
      }
    case Typedef(n, _, q) =>
      pre, post := DeclaratorSplit(QualifiersCSpelling(q) + n, open, name, close);
    case Enum(tag, q) =>
      pre, post := DeclaratorSplit(QualifiersCSpelling(q) + (if tag.isAnonymous then "" else "enum ") + tag.cTag, open, name, close);
    case Record(tag, isUnion, q) =>
      pre, post := DeclaratorSplit(
        QualifiersCSpelling(q) + (if tag.isAnonymous then "" else if isUnion then "union " else "struct ") + tag.cTag,
        open, name, close);
  }

  lemma Assoc(a: string, b: string, c: string)
    ensures a + (b + c) == (a + b) + c
  {
  }

  /** The parentheses put around a declarator whose kind binds looser
      than the one around it. */
  lemma Wrapping(t: GType, lastPrec: nat, name: string) returns (open: string, close: string)
    ensures open == "" <==> close == ""
    ensures (if Precedence(t) > 0 && lastPrec > 0 && Precedence(t) > lastPrec then "(" + name + ")" else name) ==
      open + name + close
  {
    if Precedence(t) > 0 && lastPrec > 0 && Precedence(t) > lastPrec {
      open, close := "(", ")";
    } else {
      open, close := "", "";
      assert open + name + close == name;
    }
  }

  /** A name inside a declarator inside a spelling. */
  lemma Inside(p1: string, open: string, name: string, close: string, q1: string) returns (pre: string, post: string)
    ensures p1 + (open + name + close) + q1 == pre + name + post
  {
    Regroup(p1, open, name, close, q1);
    pre, post := p1 + open, close + q1;
  }

  /** A type name followed by a declarator holding the name. */
  lemma DeclaratorSplit(head: string, open: string, name: string, close: string) returns (pre: string, post: string)
    requires open == "" <==> close == ""
    ensures head + Declarator(open + name + close) == pre + name + post
  {
    if open + name + close == "" {
      pre, post := head, "";
    } else {
      pre, post := head + " " + open, close;
    }
  }

  /** As written, an array of unknown size spells only its qualifiers:
      `int x[]` loses both its element type and its name. */
  lemma IncompleteArraySpelling()
    ensures var t := IncompleteArray(Primitive(INT, NO_QUALIFIERS), NO_QUALIFIERS);
      CSpellingAsWritten(t, "x") == "" && !Contains(CSpellingAsWritten(t, "x"), "x") &&
      CSpelling(t, "x") == "int x[]"
  {
  }

  // ---------------------------------------------------------------------
  // Names of anonymous tags

  /** `'__anon_%s_%d'`: the name given to the `n`-th anonymous tag. */
  function AnonName(kind: TagKind, n: nat): string
  {
    "__anon_" + kind.Name() + "_" + Digits(n)
  }

  /** The eighth letter of an anonymous name tells its kind apart. */
  lemma AnonNameLetter(k: TagKind, n: nat)
    ensures |AnonName(k, n)| > 7 && AnonName(k, n)[7] == k.Name()[0]
  {
  }

  /** Different kinds or different counts give different names. */
  lemma AnonNameInjective(k1: TagKind, n1: nat, k2: TagKind, n2: nat)
    requires AnonName(k1, n1) == AnonName(k2, n2)
    ensures k1 == k2 && n1 == n2
  {
    var a1, a2 := AnonName(k1, n1), AnonName(k2, n2);
    if k1 != k2 {
      AnonNameLetter(k1, n1);
      AnonNameLetter(k2, n2);
    } else {
      var pre := "__anon_" + k1.Name() + "_";
      assert a1 == pre + Digits(n1) && a2 == pre + Digits(n2);
      assert a1[|pre|..] == Digits(n1) && a2[|pre|..] == Digits(n2);
    }
  }

  /** The anonymous names given so far: every name was made from a count
      below the number of names, and no two spellings share a count. */
  ghost predicate AnonymousTable(names: map<string, string>, kinds: map<string, TagKind>, counts: map<string, nat>)
  {
    names.Keys == kinds.Keys == counts.Keys &&
    AnonymousEntries(names, kinds, counts) && CountsDistinct(counts)
  }

  ghost predicate AnonymousEntries(names: map<string, string>, kinds: map<string, TagKind>, counts: map<string, nat>)
    requires names.Keys == kinds.Keys == counts.Keys
  {
    forall s :: s in names ==> counts[s] < |names| && names[s] == AnonName(kinds[s], counts[s])
  }

  ghost predicate CountsDistinct(counts: map<string, nat>)
  {
    forall s1, s2 :: s1 in counts && s2 in counts && s1 != s2 ==> counts[s1] != counts[s2]
  }

  /** A new spelling with a count above every other keeps counts distinct. */
  lemma CountsDistinctAdd(counts: map<string, nat>, spelling: string, n: nat)
    requires CountsDistinct(counts) && spelling !in counts
    requires forall s :: s in counts ==> counts[s] < n
    ensures CountsDistinct(counts[spelling := n])
  {
    var counts' := counts[spelling := n];
    forall s1, s2 | s1 in counts' && s2 in counts' && s1 != s2
      ensures counts'[s1] != counts'[s2]
    {
      if s1 != spelling && s2 != spelling {
        assert counts'[s1] == counts[s1] && counts'[s2] == counts[s2];
      }
    }
  }

  /** No two spellings in such a table have the same name. */
  lemma AnonymousNamesDistinct(names: map<string, string>, kinds: map<string, TagKind>, counts: map<string, nat>)
    requires AnonymousTable(names, kinds, counts)
    ensures forall s1, s2 :: s1 in names && s2 in names && s1 != s2 ==> names[s1] != names[s2]
  {
    forall s1, s2 | s1 in names && s2 in names && s1 != s2
      ensures names[s1] != names[s2]
    {
      if names[s1] == names[s2] {
        AnonNameInjective(kinds[s1], counts[s1], kinds[s2], counts[s2]);
      }
    }
  }

  /** Giving a new spelling the name numbered by the size of the table
      keeps it a table, and the new name is not among the old ones. */
  lemma AnonymousEntriesAdd(names: map<string, string>, kinds: map<string, TagKind>, counts: map<string, nat>,
                          spelling: string, kind: TagKind, name: string)
    requires names.Keys == kinds.Keys == counts.Keys && spelling !in names && name == AnonName(kind, |names|)
    requires AnonymousEntries(names, kinds, counts)
    ensures AnonymousEntries(names[spelling := name], kinds[spelling := kind], counts[spelling := |names|])
  {
    var n := |names|;
    var names', kinds', counts' := names[spelling := name], kinds[spelling := kind], counts[spelling := n];
    assert |names'| == n + 1;
    forall s | s in names'
      ensures counts'[s] < |names'| && names'[s] == AnonName(kinds'[s], counts'[s])
    {
      if s != spelling {
        assert s in names;
      }
    }
  }

  lemma AnonymousTableAdd(names: map<string, string>, kinds: map<string, TagKind>, counts: map<string, nat>,
                          spelling: string, kind: TagKind)
    requires AnonymousTable(names, kinds, counts) && spelling !in names
    ensures AnonymousTable(names[spelling := AnonName(kind, |names|)], kinds[spelling := kind], counts[spelling := |names|])
    ensures forall s :: s in names ==> names[s] != AnonName(kind, |names|)
  {
    var n := |names|;
    var name := AnonName(kind, n);
    forall s | s in names
      ensures names[s] != name
    {
      if names[s] == name {
        AnonNameInjective(kinds[s], counts[s], kind, n);
      }
    }
    AnonymousEntriesAdd(names, kinds, counts, spelling, kind, name);
    CountsDistinctAdd(counts, spelling, n);
  }

  /** Storing under a key adds that key and no other. */
  lemma KeysAfterStore(m: map<string, string>, k: string, v: string)
    ensures m[k := v].Keys == m.Keys + {k}
    ensures k in m ==> m.Keys + {k} == m.Keys
  {
  }

  /** The module-level `anonymous_names` dictionary: the name given to
      each anonymous tag, keyed by its spelling. */
  class AnonymousNames {
    var names: map<string, string>
    /** The kind and the count each name was made from. */
    ghost var kinds: map<string, TagKind>
    ghost var counts: map<string, nat>

    ghost predicate Valid()
      reads this
    {
      AnonymousTable(names, kinds, counts)
    }

    constructor()
      ensures Valid() && names == map[]
    {
      names := map[];
      kinds := map[];
      counts := map[];
    }

    /** `_GetAnonymousName`: the name already given to the spelling, or a
        new one numbered by how many names were given before. A new name
        differs from every name given before. */
    method GetAnonymousName(kind: TagKind, spelling: string) returns (name: string)
      requires Valid()
      modifies this
      ensures Valid()
      ensures spelling in names && name == names[spelling] && names.Keys == old(names).Keys + {spelling}
      ensures spelling in old(names) ==> name == old(names)[spelling] && names == old(names)
      ensures spelling !in old(names) ==>
        name == AnonName(kind, |old(names)|) && names == old(names)[spelling := name] &&
        forall s :: s in old(names) ==> old(names)[s] != name
    {
      if spelling in names {
        KeysAfterStore(names, spelling, names[spelling]);
        return names[spelling];
      }
      KeysAfterStore(names, spelling, AnonName(kind, |names|));
      AnonymousTableAdd(names, kinds, counts, spelling, kind);
      name := AnonName(kind, |names|);
      counts := counts[spelling := |names|];
      kinds := kinds[spelling := kind];
      names := names[spelling := name];
    }
  }

  /** `TagType.__init__`: the JavaScript and C names of a struct, union or
      enum with clang spelling `spelling`. Both drop the leading
      keywords; an anonymous tag gets a made-up JavaScript name. */
  method MakeTag(anonymous: AnonymousNames, kind: TagKind, spelling: string, isAnonymous: bool) returns (tag: Tag)
    requires anonymous.Valid()
    modifies anonymous
    ensures anonymous.Valid()
    ensures tag.isAnonymous == isAnonymous && tag.cTag == BaseSpelling(spelling)
    ensures !isAnonymous ==> tag.jsTag == tag.cTag && anonymous.names == old(anonymous.names)
    ensures isAnonymous ==>
      BaseSpelling(spelling) in anonymous.names &&
      tag.jsTag == anonymous.names[BaseSpelling(spelling)] &&
      anonymous.names.Keys == old(anonymous.names).Keys + {BaseSpelling(spelling)}
  {
    var unqualified := BaseSpelling(spelling);
    if isAnonymous {
      var jsTag := anonymous.GetAnonymousName(kind, unqualified);
      tag := Tag(jsTag, unqualified, true);
    } else {
      BaseSpellingIdempotent(spelling);
      var jsTag := BaseSpelling(unqualified);
      tag := Tag(jsTag, jsTag, false);
    }
  }

  // ---------------------------------------------------------------------
  // Interning clang types

  /** How `FromCindexType` treats a clang type kind: a kind it builds a
      type for, `UNEXPOSED` (resolved through the canonical type), or a
      kind it refuses. */
  datatype ClangKind = Supported | Unexposed | Unsupported

  /** A clang type as the memo sees it: its kind, the memo keys of the
      types its `_PostInit` resolves (pointee, fields, result, arguments,
      alias, element), and the key of its canonical type. */
  datatype ClangType<K> = ClangType(kind: ClangKind, children: seq<K>, canonical: K)

  /** The clang types reachable from the translation unit, by memo key
      (`_Key`: the kind followed by the spelling). Every key they mention
      is present, and, as clang's `getCanonicalType` does, the canonical
      type of a canonical type is itself. A canonical type may still be
      unexposed. */
  ghost predicate ClangGraph<K(!new)>(env: map<K, ClangType<K>>)
  {
    forall k {:trigger env[k]} :: k in env ==>
      env[k].canonical in env && env[env[k].canonical].canonical == env[k].canonical &&
      forall c :: c in env[k].children ==> c in env
  }

  ghost predicate UnexposedAt<K(!new)>(env: map<K, ClangType<K>>, k: K)
  {
    k in env && env[k].kind == Unexposed
  }

  /** The key a clang type is interned under: its canonical type's key if
      it is unexposed, its own otherwise. The key is in the graph, and
      when it is still unexposed it is its own canonical type. */
  function InternedKey<K(==,!new)>(env: map<K, ClangType<K>>, key: K): (k: K)
    ensures ClangGraph(env) && key in env ==>
      k in env && (env[k].kind == Unexposed ==> env[k].canonical == k)
    ensures !UnexposedAt(env, key) ==> k == key
  {
    if key in env && env[key].kind == Unexposed then
      assert UnexposedAt(env, key);
      env[key].canonical
    else key
  }

  /** The two ways `FromCindexType` fails: `gen.Error` for a kind it does
      not support, and Python's `RecursionError` when an unexposed type's
      canonical type is unexposed too, for the call on it calls itself on
      the same type again and again. */
  datatype InternError<K> = UnsupportedKind(key: K) | UnboundedRecursion(key: K)

  /** An interned type: its memo key and the interned types it refers to.
      Interned types are identified by their index in `TypeMemo.types`. */
  datatype Interned<K> = Interned(key: K, children: seq<nat>)

  /** Every memo key names an interned type with that key, so no two
      keys share an interned type. */
  ghost predicate MemoTable<K(!new)>(memo: map<K, nat>, types: seq<Interned<K>>)
  {
    forall k {:trigger memo[k]} :: k in memo ==> memo[k] < |types| && types[memo[k]].key == k
  }

  /** Different memo keys never share an interned type. */
  lemma MemoTableInjective<K(!new)>(memo: map<K, nat>, types: seq<Interned<K>>, k1: K, k2: K)
    requires MemoTable(memo, types) && k1 in memo && k2 in memo && k1 != k2
    ensures memo[k1] != memo[k2]
  {
  }

  /** A new key interned as the next type keeps the table. */
  lemma MemoTableAdd<K(!new)>(memo: map<K, nat>, types: seq<Interned<K>>, key: K)
    requires MemoTable(memo, types)
    ensures MemoTable(memo[key := |types|], types + [Interned(key, [])])
  {
    var memo', types' := memo[key := |types|], types + [Interned(key, [])];
    forall k | k in memo'
      ensures memo'[k] < |types'| && types'[memo'[k]].key == k
    {
      if k != key {
        assert memo'[k] == memo[k] && types'[memo[k]] == types[memo[k]];
      }
    }
  }

  /** Setting the children of an interned type keeps the table. */
  lemma MemoTableSetChildren<K(!new)>(memo: map<K, nat>, types: seq<Interned<K>>, id: nat, ids: seq<nat>)
    requires MemoTable(memo, types) && id < |types|
    ensures MemoTable(memo, types[id := Interned(types[id].key, ids)])
  {
    var types' := types[id := Interned(types[id].key, ids)];
    assert forall i :: 0 <= i < |types'| ==> types'[i].key == types[i].key;
  }

  /** Entries already in the memo keep their value. */
  ghost predicate MemoGrows<K(!new)>(m0: map<K, nat>, m1: map<K, nat>)
  {
    m0.Keys <= m1.Keys && forall k :: k in m0 ==> m1[k] == m0[k]
  }

  /** Types already interned are unchanged. */
  ghost predicate TypesKept<K(!new)>(t0: seq<Interned<K>>, t1: seq<Interned<K>>)
  {
    |t0| <= |t1| && forall i :: 0 <= i < |t0| ==> t1[i] == t0[i]
  }

  /** Updating a type interned after `t0` keeps `t0`'s types. */
  lemma TypesKeptSet<K(!new)>(t0: seq<Interned<K>>, t1: seq<Interned<K>>, id: nat, x: Interned<K>)
    requires TypesKept(t0, t1) && |t0| <= id < |t1|
    ensures TypesKept(t0, t1[id := x])
  {
  }

  lemma MemoGrowsTrans<K(!new)>(m0: map<K, nat>, m1: map<K, nat>, m2: map<K, nat>)
    requires MemoGrows(m0, m1) && MemoGrows(m1, m2)
    ensures MemoGrows(m0, m2)
  {
  }

  lemma TypesKeptTrans<K(!new)>(t0: seq<Interned<K>>, t1: seq<Interned<K>>, t2: seq<Interned<K>>)
    requires TypesKept(t0, t1) && TypesKept(t1, t2)
    ensures TypesKept(t0, t2)
  {
  }

  /** `ids` are the interned types of the clang types `keys`, in order. */
  ghost predicate ResolvedAs<K(!new)>(env: map<K, ClangType<K>>, memo: map<K, nat>, keys: seq<K>, ids: seq<nat>)
  {
    |ids| == |keys| &&
    forall j :: 0 <= j < |keys| ==> InternedKey(env, keys[j]) in memo && memo[InternedKey(env, keys[j])] == ids[j]
  }

  /** Growing the memo keeps what was resolved, and resolving the next
      key extends it. */
  lemma ResolvedAsStep<K(!new)>(env: map<K, ClangType<K>>, m0: map<K, nat>, m1: map<K, nat>,
                       keys: seq<K>, i: nat, ids: seq<nat>, id: nat)
    requires i < |keys|
    requires ResolvedAs(env, m0, keys[..i], ids) && MemoGrows(m0, m1)
    requires InternedKey(env, keys[i]) in m1 && m1[InternedKey(env, keys[i])] == id
    ensures ResolvedAs(env, m1, keys[..i + 1], ids + [id])
  {
    var keys', ids' := keys[..i + 1], ids + [id];
    forall j | 0 <= j < |keys'|
      ensures InternedKey(env, keys'[j]) in m1 && m1[InternedKey(env, keys'[j])] == ids'[j]
    {
      if j < i {
        assert keys'[j] == keys[..i][j] && ids'[j] == ids[j];
      }
    }
  }

  /** `CindexTypeMemo` with the `Type` objects it holds: `memo` maps a
      memo key to the type interned for it. */
  class TypeMemo<K(==,!new)> {
    const env: map<K, ClangType<K>>
    var memo: map<K, nat>
    var types: seq<Interned<K>>

    ghost predicate Valid()
      reads this
    {
      ClangGraph(env) && MemoTable(memo, types)
    }

    constructor(env: map<K, ClangType<K>>)
      requires ClangGraph(env)
      ensures Valid() && this.env == env && memo == map[] && types == []
    {
      this.env := env;
      memo := map[];
      types := [];
    }

    /** The interned type `id` refers to the interned types of the
        children of clang type `key`, in order. */
    ghost predicate ChildrenResolved(key: K, id: nat)
      reads this
      requires Valid() && key in env && id < |types|
    {
      ResolvedAs(env, memo, env[key].children, types[id].children)
    }

    /** `Type.FromCindexType`: the interned type for `key`. A type already
        in the memo is returned as it is and nothing changes; an
        unexposed type is interned as its canonical type; an unsupported
        kind is an error. */
    method Resolve(key: K) returns (r: Result<nat, InternError<K>>)
      requires Valid() && key in env
      modifies this
      decreases env.Keys - memo.Keys, if env[key].kind == Unexposed then 2 else 1
      ensures Valid() && MemoGrows(old(memo), memo) && TypesKept(old(types), types)
      ensures r.Ok? ==> InternedKey(env, key) in memo && memo[InternedKey(env, key)] == r.value
      ensures env[InternedKey(env, key)].kind == Supported && InternedKey(env, key) in old(memo) ==>
        r == Ok(old(memo)[InternedKey(env, key)]) && memo == old(memo) && types == old(types)
      ensures env[InternedKey(env, key)].kind == Unsupported ==>
        r == Err(UnsupportedKind(InternedKey(env, key))) && memo == old(memo) && types == old(types)
      ensures env[InternedKey(env, key)].kind == Unexposed ==>
        r == Err(UnboundedRecursion(InternedKey(env, key))) && memo == old(memo) && types == old(types)
      ensures r.Ok? && InternedKey(env, key) !in old(memo) ==>
        r.value == |old(types)| && ChildrenResolved(InternedKey(env, key), r.value)
    {
      if env[key].kind == Unexposed {
        var canonical := env[key].canonical;
        if env[canonical].kind == Unexposed {
          r := Err(UnboundedRecursion(canonical));
        } else {
          r := Resolve(canonical);
        }
      } else if env[key].kind == Unsupported {
        r := Err(UnsupportedKind(key));
      } else if key in memo {
        r := Ok(memo[key]);
      } else {
        r := Intern(key);
      }
    }

    /** Entering a pending key leaves fewer keys pending. */
    static lemma PendingShrinks(keys: set<K>, done: set<K>, key: K)
      requires key in keys && key !in done
      ensures keys - (done + {key}) < keys - done
    {
      assert key in keys - done && key !in keys - (done + {key});
    }

    /** Keys entered in the memo stay pending no more. */
    static lemma PendingNoMore(keys: set<K>, before: set<K>, after: set<K>)
      requires before <= after
      ensures keys - after < keys - before || keys - after == keys - before
    {
    }

    /** `_DoFromCindexType` for a type not yet in the memo: the new type is
        entered in the memo BEFORE its children are resolved (`_PostInit`),
        so a type that refers back to itself gets this same type. Entries
        made before an error stay in the memo. */
    method Intern(key: K) returns (r: Result<nat, InternError<K>>)
      requires Valid() && key in env && key !in memo
      modifies this
      decreases env.Keys - memo.Keys, 0
      ensures Valid() && MemoGrows(old(memo), memo) && TypesKept(old(types), types)
      ensures key in memo && memo[key] == |old(types)|
      ensures r.Ok? ==> r.value == |old(types)| && ChildrenResolved(key, r.value)
    {
      var id := Enter(key);
      ghost var memo1, types1 := memo, types;
      PendingShrinks(env.Keys, old(memo.Keys), key);
      var ids := ResolveAll(env[key].children);
      MemoGrowsTrans(old(memo), memo1, memo);
      TypesKeptTrans(old(types), types1, types);
      if ids.Err? {
        return Err(ids.error);
      }
      MemoTableSetChildren(memo, types, id, ids.value);
      TypesKeptSet(old(types), types, id, Interned(key, ids.value));
      types := types[id := Interned(key, ids.value)];
      r := Ok(id);
    }

    /** `memo.Set(cindex_type, cls(cindex_type))` in `_DoFromCindexType`:
        enters `key` in the memo with a type whose children `_PostInit`
        has not resolved yet. */
    method Enter(key: K) returns (id: nat)
      requires Valid() && key !in memo
      modifies this
      ensures Valid() && id == |old(types)|
      ensures memo == old(memo)[key := id] && types == old(types) + [Interned(key, [])]
      ensures MemoGrows(old(memo), memo) && TypesKept(old(types), types)
    {
      id := |types|;
      MemoTableAdd(memo, types, key);
      types := types + [Interned(key, [])];
      memo := memo[key := id];
    }

    /** The `_PostInit` loop: resolves the clang types `keys` in order and
        stops at the first error. */
    method ResolveAll(keys: seq<K>) returns (r: Result<seq<nat>, InternError<K>>)
      requires Valid() && forall k :: k in keys ==> k in env
      modifies this
      decreases env.Keys - memo.Keys, 3
      ensures Valid() && MemoGrows(old(memo), memo) && TypesKept(old(types), types)
      ensures r.Ok? ==> ResolvedAs(env, memo, keys, r.value)
    {
      var ids: seq<nat> := [];
      var i := 0;
      while i < |keys|
        invariant 0 <= i <= |keys|
        invariant Valid() && MemoGrows(old(memo), memo) && TypesKept(old(types), types)
        invariant ResolvedAs(env, memo, keys[..i], ids)
      {
        ghost var memo0, types0 := memo, types;
        PendingNoMore(env.Keys, old(memo.Keys), memo.Keys);
        var child := Resolve(keys[i]);
        MemoGrowsTrans(old(memo), memo0, memo);
        TypesKeptTrans(old(types), types0, types);
        if child.Err? {
          return Err(child.error);
        }
        ResolvedAsStep(env, memo0, memo, keys, i, ids, child.value);
        ids := ids + [child.value];
        i := i + 1;
      }
      assert keys[..i] == keys;
      r := Ok(ids);
    }
  }
}
