/** The C type values of the JavaScript runtime's `type` module
    (src/js/naclbind.js): qualifier sets, the type kinds, `qualify`,
    typedef removal (`getCanonical`) and type compatibility. */
module CTypes {
  import opened Wrappers

  /** A qualifier set, a three-bit mask. */
  type Cv = x: int | 0 <= x < 8

  const IS_CONST: Cv := 1
  const IS_VOLATILE: Cv := 2
  const IS_RESTRICT: Cv := 4

  function CvOr(a: Cv, b: Cv): Cv { ((a as bv3) | (b as bv3)) as int }
  function CvAnd(a: Cv, b: Cv): Cv { ((a as bv3) & (b as bv3)) as int }
  /** `a & ~b`. */
  function CvAndNot(a: Cv, b: Cv): Cv { ((a as bv3) & !(b as bv3)) as int }

  /** The three qualifiers, each named by its bit. */
  datatype Qualifier = Const | Volatile | Restrict
  {
    function Bit(): Cv
    {
      match this
      case Const => IS_CONST
      case Volatile => IS_VOLATILE
      case Restrict => IS_RESTRICT
    }
  }

  /** The qualifiers whose bits are set in `q`. */
  function Qualifiers(q: Cv): set<Qualifier>
  {
    (if CvAnd(q, IS_CONST) != 0 then {Const} else {})
    + (if CvAnd(q, IS_VOLATILE) != 0 then {Volatile} else {})
    + (if CvAnd(q, IS_RESTRICT) != 0 then {Restrict} else {})
  }

  /** The mask is exactly its set of qualifiers. */
  lemma QualifiersInjective(q1: Cv, q2: Cv)
    requires Qualifiers(q1) == Qualifiers(q2)
    ensures q1 == q2
  {
    assert Const in Qualifiers(q1) <==> Const in Qualifiers(q2);
    assert Volatile in Qualifiers(q1) <==> Volatile in Qualifiers(q2);
    assert Restrict in Qualifiers(q1) <==> Restrict in Qualifiers(q2);
  }

  /** `isLessQualified`: some bit of `q2` is missing from `q1`, and every
      bit of `q1` is in `q2`. */
  predicate IsLessQualified(q1: Cv, q2: Cv)
  {
    CvAndNot(q2, q1) != 0 && CvAnd(q1, q2) == q1
  }

  predicate IsLessOrEquallyQualified(q1: Cv, q2: Cv)
  {
    IsLessQualified(q1, q2) || q1 == q2
  }

  predicate IsMoreQualified(q1: Cv, q2: Cv)
  {
    IsLessQualified(q2, q1)
  }

  predicate IsMoreOrEquallyQualified(q1: Cv, q2: Cv)
  {
    IsLessQualified(q2, q1) || q1 == q2
  }

  /** Less qualified means a strict subset of the qualifiers. */
  lemma LessQualifiedIsStrictSubset(q1: Cv, q2: Cv)
    ensures IsLessQualified(q1, q2) <==> Qualifiers(q1) < Qualifiers(q2)
  {
  }

  /** Less-or-equally qualified means a subset, and more qualified is the
      converse. */
  lemma QualificationOrder(q1: Cv, q2: Cv)
    ensures IsLessOrEquallyQualified(q1, q2) <==> Qualifiers(q1) <= Qualifiers(q2)
    ensures IsMoreQualified(q1, q2) <==> Qualifiers(q2) < Qualifiers(q1)
    ensures IsMoreOrEquallyQualified(q1, q2) <==> Qualifiers(q2) <= Qualifiers(q1)
  {
    LessQualifiedIsStrictSubset(q1, q2);
    LessQualifiedIsStrictSubset(q2, q1);
    if Qualifiers(q1) == Qualifiers(q2) {
      QualifiersInjective(q1, q2);
    }
  }

  /** OR-ing two masks unites their qualifiers. */
  lemma CvOrUnion(a: Cv, b: Cv)
    ensures Qualifiers(CvOr(a, b)) == Qualifiers(a) + Qualifiers(b)
  {
  }

  /** The `Type` constructor's check of a `cv` argument: negative values
      and values above `IS_CONST | IS_VOLATILE | IS_RESTRICT` are refused. */
  function CheckCv(cv: int): (r: Option<Cv>)
    ensures r.Some? <==> 0 <= cv <= CvOr(CvOr(IS_CONST, IS_VOLATILE), IS_RESTRICT)
    ensures r.Some? ==> r.value == cv
  {
    if cv < 0 then None
    else if cv > CvOr(CvOr(IS_CONST, IS_VOLATILE), IS_RESTRICT) then None
    else Some(cv)
  }

  /** The numeric kinds, with the kind codes, ranks and signedness flags of
      the module's tables. */
  datatype NumKind =
    | BOOL | CHAR_U | UCHAR | USHORT | UINT | ULONG | ULONGLONG
    | CHAR_S | SCHAR | WCHAR | SHORT | INT | LONG | LONGLONG
    | FLOAT | DOUBLE | LONGDOUBLE
  {
    function Code(): int
    {
      match this
      case BOOL => 3 case CHAR_U => 4 case UCHAR => 5 case USHORT => 6
      case UINT => 7 case ULONG => 8 case ULONGLONG => 9 case CHAR_S => 10
      case SCHAR => 11 case WCHAR => 12 case SHORT => 13 case INT => 14
      case LONG => 15 case LONGLONG => 16 case FLOAT => 17 case DOUBLE => 18
      case LONGDOUBLE => 19
    }

    /** `PRIMITIVE_RANK`. */
    function Rank(): int
    {
      match this
      case BOOL => 1
      case CHAR_U | UCHAR | CHAR_S | SCHAR => 2
      case USHORT | SHORT => 3
      case UINT | WCHAR | INT => 4
      case ULONG | LONG => 5
      case ULONGLONG | LONGLONG => 6
      case FLOAT => 7
      case DOUBLE => 8
      case LONGDOUBLE => 9
    }

    /** `PRIMITIVE_SIGNED`, which holds `true` for the unsigned kinds and
        has no entry for bool and the floating kinds. */
    function SignedEntry(): Option<bool>
    {
      match this
      case BOOL | FLOAT | DOUBLE | LONGDOUBLE => None
      case CHAR_U | UCHAR | USHORT | UINT | ULONG | ULONGLONG => Some(true)
      case _ => Some(false)
    }

    /** `isInteger`: the kinds from BOOL to LONGLONG. */
    predicate IsInteger() { 3 <= Code() <= 16 }
  }

  lemma CodeInjective(a: NumKind, b: NumKind)
    requires a.Code() == b.Code()
    ensures a == b
  {
  }

  datatype Type =
    | Void(cv: Cv)
    | Numeric(kind: NumKind, cv: Cv)
    | Pointer(pointee: Type, cv: Cv)
    | Record(tag: string, size: int, isUnion: bool, cv: Cv)
    | Enum(tag: string, cv: Cv)
    | Typedef(tag: string, alias: Type, cv: Cv)
    | FunctionProto(resultType: Type, argTypes: seq<Type>, variadic: bool)
    | FunctionNoProto(resultType: Type)
    | ConstantArray(elementType: Type, arraySize: nat)
    | IncompleteArray(elementType: Type)
  {
    /** The `kind` code; numeric types carry their own. */
    function Kind(): int
    {
      match this
      case Void(_) => 2
      case Numeric(k, _) => k.Code()
      case Pointer(_, _) => 20
      case Record(_, _, _, _) => 21
      case Enum(_, _) => 22
      case Typedef(_, _, _) => 23
      case FunctionProto(_, _, _) => 24
      case FunctionNoProto(_) => 25
      case ConstantArray(_, _) => 26
      case IncompleteArray(_) => 27
    }

    /** The `cv` field; function and array types are built with 0. */
    function Quals(): Cv
    {
      match this
      case FunctionProto(_, _, _) => 0
      case FunctionNoProto(_) => 0
      case ConstantArray(_, _) => 0
      case IncompleteArray(_) => 0
      case _ => this.cv
    }

    predicate IsInteger() { Numeric? && kind.IsInteger() }
    predicate IsPointerlike() { Pointer? || ConstantArray? || IncompleteArray? }
    predicate IsArray() { ConstantArray? || IncompleteArray? }
    predicate IsFunction() { FunctionProto? || FunctionNoProto? }

    /** `qualify(cv)`: ORs `cv` into the type's own; function and array
        types are returned unchanged. */
    function Qualify(q: Cv): (r: Type)
      ensures r.Kind() == Kind()
    {
      match this
      case Void(c) => Void(CvOr(c, q))
      case Numeric(k, c) => Numeric(k, CvOr(c, q))
      case Pointer(p, c) => Pointer(p, CvOr(c, q))
      case Record(t, s, u, c) => Record(t, s, u, CvOr(c, q))
      case Enum(t, c) => Enum(t, CvOr(c, q))
      case Typedef(t, a, c) => Typedef(t, a, CvOr(c, q))
      case _ => this
    }

    /** `unqualified()`: the same type with no qualifiers. */
    function Unqualified(): (r: Type)
      ensures r.Kind() == Kind() && r.Quals() == 0
    {
      match this
      case Void(_) => Void(0)
      case Numeric(k, _) => Numeric(k, 0)
      case Pointer(p, _) => Pointer(p, 0)
      case Record(t, s, u, _) => Record(t, s, u, 0)
      case Enum(t, _) => Enum(t, 0)
      case Typedef(t, a, _) => Typedef(t, a, 0)
      case _ => this
    }

    /** `getPointerlikePointee`. */
    function Pointee(): Type
      requires IsPointerlike()
    {
      if Pointer? then pointee else elementType
    }
  }

  /** `qualify` adds exactly the given qualifiers to a type that can carry
      them, and removing all of them afterwards gives `unqualified()`. */
  lemma QualifyAddsQualifiers(t: Type, q: Cv)
    requires !t.IsFunction() && !t.IsArray()
    ensures Qualifiers(t.Qualify(q).Quals()) == Qualifiers(t.Quals()) + Qualifiers(q)
    ensures t.Qualify(q).Unqualified() == t.Unqualified()
  {
    CvOrUnion(t.Quals(), q);
  }

  /** `hasTypedef`. */
  predicate HasTypedef(t: Type)
  {
    match t
    case Typedef(_, _, _) => true
    case Pointer(p, _) => HasTypedef(p)
    case ConstantArray(e, _) => HasTypedef(e)
    case IncompleteArray(e) => HasTypedef(e)
    case FunctionProto(r, args, _) =>
      HasTypedef(r) || exists i :: 0 <= i < |args| && HasTypedef(args[i])
    case FunctionNoProto(r) => HasTypedef(r)
    case _ => false
  }

  /** `getCanonicalHelper`: rebuilds the type with every typedef replaced
      by its alias, the typedef's qualifiers OR-ed into the alias's. */
  function CanonicalHelper(t: Type): (r: Type)
    ensures !HasTypedef(r)
  {
    match t
    case Typedef(_, a, c) => QualifyKeepsNoTypedef(CanonicalHelper(a), c); CanonicalHelper(a).Qualify(c)
    case Pointer(p, c) => Pointer(CanonicalHelper(p), c)
    case ConstantArray(e, n) => ConstantArray(CanonicalHelper(e), n)
    case IncompleteArray(e) => IncompleteArray(CanonicalHelper(e))
    case FunctionProto(res, args, v) =>
      FunctionProto(CanonicalHelper(res), seq(|args|, i requires 0 <= i < |args| => CanonicalHelper(args[i])), v)
    case FunctionNoProto(res) => FunctionNoProto(CanonicalHelper(res))
    case _ => t
  }

  lemma QualifyKeepsNoTypedef(t: Type, q: Cv)
    requires !HasTypedef(t)
    ensures !HasTypedef(t.Qualify(q))
  {
  }

  /** `getCanonical`: the argument itself when it holds no typedef. */
  function Canonical(t: Type): (r: Type)
    ensures !HasTypedef(r)
  {
    if !HasTypedef(t) then t else CanonicalHelper(t)
  }

  /** Rebuilding a typedef-free type gives it back, so the shortcut in
      `getCanonical` does not change its result. */
  lemma {:induction false} CanonicalHelperIdentity(t: Type)
    requires !HasTypedef(t)
    ensures CanonicalHelper(t) == t
  {
    match t
    case Pointer(p, _) => CanonicalHelperIdentity(p);
    case ConstantArray(e, _) => CanonicalHelperIdentity(e);
    case IncompleteArray(e) => CanonicalHelperIdentity(e);
    case FunctionProto(res, args, _) =>
      CanonicalHelperIdentity(res);
      forall i | 0 <= i < |args|
        ensures CanonicalHelper(args[i]) == args[i]
      {
        CanonicalHelperIdentity(args[i]);
      }
    case FunctionNoProto(res) => CanonicalHelperIdentity(res);
    case _ =>
  }

  lemma CanonicalIsHelper(t: Type)
    ensures Canonical(t) == CanonicalHelper(t)
  {
    if !HasTypedef(t) {
      CanonicalHelperIdentity(t);
    }
  }

  /** Canonicalising twice changes nothing. */
  lemma CanonicalIdempotent(t: Type)
    ensures Canonical(Canonical(t)) == Canonical(t)
  {
  }

  /** A typedef canonicalises to its alias's canonical form, qualified with
      the typedef's own qualifiers. */
  lemma CanonicalTypedef(tag: string, alias: Type, cv: Cv)
    ensures Canonical(Typedef(tag, alias, cv)) == Canonical(alias).Qualify(cv)
  {
    CanonicalIsHelper(alias);
  }
}
