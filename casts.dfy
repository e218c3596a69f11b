/** Type compatibility and the cast-rank lattice of the JavaScript `type`
    module (src/js/naclbind.js): `isCompatibleWith`, `canCast`,
    `canCastNumeric`, `canCastPointer` and `getCastRank`. */
module TypeCasts {
  import opened CTypes

  // Success
  const CAST_OK_EXACT := 3
  const CAST_OK_PROMOTION := 2
  const CAST_OK_CONVERSION := 1
  const CAST_OK_DEFAULT_PROMOTION := 0
  // Warning
  const CAST_TRUNCATE := -1
  const CAST_SIGNED_UNSIGNED := -2
  const CAST_INT_TO_POINTER := -3
  const CAST_POINTER_TO_INT := -4
  const CAST_DISCARD_QUALIFIER := -5
  const CAST_INT_TO_ENUM := -6
  const CAST_DIFFERENT_ENUMS := -7
  const CAST_INCOMPATIBLE_POINTERS := -8
  const CAST_FUNCTION_POINTER_VOID_POINTER := -9
  const CAST_FUNCTION_POINTER_NOPROTO := -10
  // Failure
  const CAST_ERROR := -11

  predicate IsCastOK(result: int) { result >= 0 }
  predicate IsCastWarning(result: int) { result < 0 && result > CAST_ERROR }
  predicate IsCastError(result: int) { result == CAST_ERROR }

  /** `isCompatibleWith` on two canonical types, as written: the argument
      lists of two prototypes are handed to `everyArrayPair` as the two
      function types themselves, which have no `length`, so the argument
      types are never compared. A typedef never reaches this point. */
  predicate CompatibleAsWritten(from: Type, to: Type)
  {
    match from
    case Numeric(k, c) => from.Kind() == to.Kind() && c == to.Quals()
    case Void(_) => to.Void?
    case Pointer(p, c) =>
      to.IsPointerlike() && CompatibleAsWritten(p, to.Pointee()) && c == to.Quals()
    case ConstantArray(e, _) =>
      to.IsPointerlike() && CompatibleAsWritten(e, to.Pointee()) && 0 == to.Quals()
    case IncompleteArray(e) =>
      to.IsPointerlike() && CompatibleAsWritten(e, to.Pointee()) && 0 == to.Quals()
    case Record(tag, _, u, c) => to.Record? && tag == to.tag && c == to.cv && u == to.isUnion
    case Enum(tag, c) => to.Enum? && tag == to.tag && c == to.cv
    case FunctionProto(res, args, _) =>
      (to.FunctionProto? && |args| == |to.argTypes| && CompatibleAsWritten(res, to.resultType))
      || (to.FunctionNoProto? && CompatibleAsWritten(res, to.resultType))
    case FunctionNoProto(res) =>
      (to.FunctionNoProto? || to.FunctionProto?) && CompatibleAsWritten(res, to.resultType)
    case Typedef(_, _, _) => false
  }

  /** `isCompatibleWith` on two canonical types with the argument types of
      two prototypes compared pair by pair; the rest of the model uses this
      one. */
  predicate Compatible(from: Type, to: Type)
  {
    match from
    case Numeric(k, c) => from.Kind() == to.Kind() && c == to.Quals()
    case Void(_) => to.Void?
    case Pointer(p, c) =>
      to.IsPointerlike() && Compatible(p, to.Pointee()) && c == to.Quals()
    case ConstantArray(e, _) =>
      to.IsPointerlike() && Compatible(e, to.Pointee()) && 0 == to.Quals()
    case IncompleteArray(e) =>
      to.IsPointerlike() && Compatible(e, to.Pointee()) && 0 == to.Quals()
    case Record(tag, _, u, c) => to.Record? && tag == to.tag && c == to.cv && u == to.isUnion
    case Enum(tag, c) => to.Enum? && tag == to.tag && c == to.cv
    case FunctionProto(res, args, _) =>
      (to.FunctionProto? && |args| == |to.argTypes| && Compatible(res, to.resultType)
       && forall i :: 0 <= i < |args| ==> Compatible(args[i], to.argTypes[i]))
      || (to.FunctionNoProto? && Compatible(res, to.resultType))
    case FunctionNoProto(res) =>
      (to.FunctionNoProto? || to.FunctionProto?) && Compatible(res, to.resultType)
    case Typedef(_, _, _) => false
  }

  /** `isCompatibleWith`: both types are canonicalised first. */
  predicate IsCompatibleWith(from: Type, to: Type)
  {
    Compatible(Canonical(from), Canonical(to))
  }

  predicate IsCompatibleWithAsWritten(from: Type, to: Type)
  {
    CompatibleAsWritten(Canonical(from), Canonical(to))
  }

  /** `canCastNumeric`. */
  function CanCastNumeric(from: Type, to: Type): int
    requires from.Numeric?
  {
    if from.Kind() == to.Kind() then CAST_OK_EXACT
    else if from.IsInteger() && to.IsPointerlike() then CAST_INT_TO_POINTER
    else if from.IsInteger() && to.Enum? then CAST_INT_TO_ENUM
    else if !to.Numeric? then CAST_ERROR
    else if from.kind.Rank() > to.kind.Rank() then CAST_TRUNCATE
    else if from.kind.Rank() == to.kind.Rank() && from.kind.SignedEntry() != to.kind.SignedEntry()
    then CAST_SIGNED_UNSIGNED
    else if from.IsInteger() == to.IsInteger() then CAST_OK_PROMOTION
    else CAST_OK_CONVERSION
  }

  /** The qualifier check that ends `canCastPointer`. */
  function PointeeQualifierCheck(fp: Type, tp: Type): int
  {
    if !IsLessOrEquallyQualified(fp.Quals(), tp.Quals()) then CAST_DISCARD_QUALIFIER
    else CAST_OK_EXACT
  }

  /** `canCastPointer`. */
  function CanCastPointer(from: Type, to: Type): int
    requires from.IsPointerlike()
  {
    var fp := from.Pointee();
    if to.IsPointerlike() then
      var tp := to.Pointee();
      if fp.Void? && tp.Void? then PointeeQualifierCheck(fp, tp)
      else if (fp.Void? && tp.IsFunction()) || (fp.IsFunction() && tp.Void?) then
        CAST_FUNCTION_POINTER_VOID_POINTER
      else if fp.IsFunction() && tp.IsFunction() && fp.Kind() != tp.Kind() then
        if IsCompatibleWith(fp, tp) then CAST_FUNCTION_POINTER_NOPROTO else CAST_INCOMPATIBLE_POINTERS
      else if fp.Void? || tp.Void? then CAST_OK_CONVERSION
      else if !IsCompatibleWith(fp.Unqualified(), tp.Unqualified()) then CAST_INCOMPATIBLE_POINTERS
      else PointeeQualifierCheck(fp, tp)
    else if to.IsInteger() then CAST_POINTER_TO_INT
    else CAST_ERROR
  }

  /** `canCastPointer` as written, with `isCompatibleWith` as written. */
  function CanCastPointerAsWritten(from: Type, to: Type): int
    requires from.IsPointerlike()
  {
    var fp := from.Pointee();
    if to.IsPointerlike() then
      var tp := to.Pointee();
      if fp.Void? && tp.Void? then PointeeQualifierCheck(fp, tp)
      else if (fp.Void? && tp.IsFunction()) || (fp.IsFunction() && tp.Void?) then
        CAST_FUNCTION_POINTER_VOID_POINTER
      else if fp.IsFunction() && tp.IsFunction() && fp.Kind() != tp.Kind() then
        if IsCompatibleWithAsWritten(fp, tp) then CAST_FUNCTION_POINTER_NOPROTO else CAST_INCOMPATIBLE_POINTERS
      else if fp.Void? || tp.Void? then CAST_OK_CONVERSION
      else if !IsCompatibleWithAsWritten(fp.Unqualified(), tp.Unqualified()) then CAST_INCOMPATIBLE_POINTERS
      else PointeeQualifierCheck(fp, tp)
    else if to.IsInteger() then CAST_POINTER_TO_INT
    else CAST_ERROR
  }

  /** `canCast` after both types have been canonicalised. */
  function CastCanonical(from: Type, to: Type): int
  {
    match from
    case Numeric(_, _) => CanCastNumeric(from, to)
    case Void(_) => if to.Void? then CAST_OK_EXACT else CAST_ERROR
    case Pointer(_, _) => CanCastPointer(from, to)
    case ConstantArray(_, _) => CanCastPointer(from, to)
    case IncompleteArray(_) => CanCastPointer(from, to)
    case Record(tag, _, u, _) =>
      if to.Record? && tag == to.tag && u == to.isUnion then CAST_OK_EXACT else CAST_ERROR
    case Enum(tag, _) =>
      if to.IsInteger() then CAST_OK_CONVERSION
      else if to.Enum? then (if tag == to.tag then CAST_OK_EXACT else CAST_DIFFERENT_ENUMS)
      else CAST_ERROR
    case FunctionProto(_, _, _) => CAST_ERROR
    case FunctionNoProto(_) => CAST_ERROR
    case Typedef(_, _, _) => CAST_ERROR
  }

  /** `canCast`: every result is one of the success, warning or failure
      codes. */
  function CanCast(from: Type, to: Type): (r: int)
    ensures CAST_ERROR <= r <= CAST_OK_EXACT
    ensures IsCastOK(r) || IsCastWarning(r) || IsCastError(r)
  {
    CastCanonical(Canonical(from), Canonical(to))
  }

  /** `getCastRank`: the success code, or -1 for a warning or a failure. */
  function GetCastRank(from: Type, to: Type): (r: int)
    ensures -1 <= r <= CAST_OK_EXACT
    ensures r >= 0 <==> IsCastOK(CanCast(from, to))
  {
    var result := CanCast(from, to);
    if IsCastWarning(result) || IsCastError(result) then -1 else result
  }

  // ---------------------------------------------------------------------
  // Properties

  /** Casting looks through typedefs on both sides. */
  lemma CastIgnoresTypedefs(from: Type, to: Type)
    ensures CanCast(from, to) == CanCast(Canonical(from), Canonical(to))
    ensures IsCompatibleWith(from, to) == IsCompatibleWith(Canonical(from), Canonical(to))
  {
  }

  /** Between numeric types: the same kind is exact whatever the
      qualifiers; a cast to a lower rank truncates; the same rank with a
      different signedness is a signed/unsigned warning; anything else is
      a promotion (integer to integer, floating to floating) or a
      conversion. */
  lemma NumericCasts(k1: NumKind, c1: Cv, k2: NumKind, c2: Cv)
    ensures CanCast(Numeric(k1, c1), Numeric(k2, c2)) ==
      if k1 == k2 then CAST_OK_EXACT
      else if k1.Rank() > k2.Rank() then CAST_TRUNCATE
      else if k1.Rank() == k2.Rank() && k1.SignedEntry() != k2.SignedEntry() then CAST_SIGNED_UNSIGNED
      else if k1.IsInteger() == k2.IsInteger() then CAST_OK_PROMOTION
      else CAST_OK_CONVERSION
    ensures CanCast(Numeric(k1, c1), Numeric(k2, c2)) == CAST_OK_EXACT <==> k1 == k2
  {
    if k1.Code() == k2.Code() {
      CodeInjective(k1, k2);
    }
  }

  /** An integer cast to a pointer-like type or to an enum is a warning of
      its own kind. */
  lemma IntegerToPointerOrEnum(k: NumKind, c: Cv, to: Type)
    requires k.IsInteger()
    ensures Canonical(to).IsPointerlike() ==> CanCast(Numeric(k, c), to) == CAST_INT_TO_POINTER
    ensures Canonical(to).Enum? ==> CanCast(Numeric(k, c), to) == CAST_INT_TO_ENUM
  {
  }

  /** Pointers to void and to any object type convert both ways, whatever
      either side's qualifiers. */
  lemma VoidPointerConversion(c: Cv, q1: Cv, t: Type, q2: Cv)
    requires !HasTypedef(t) && !t.Void? && !t.IsFunction()
    ensures CanCast(Pointer(Void(c), q1), Pointer(t, q2)) == CAST_OK_CONVERSION
    ensures CanCast(Pointer(t, q2), Pointer(Void(c), q1)) == CAST_OK_CONVERSION
  {
    assert !HasTypedef(Void(c));
    assert !HasTypedef(Pointer(Void(c), q1));
    assert !HasTypedef(Pointer(t, q2));
  }

  /** Between pointers to compatible object types, dropping a qualifier of
      the pointee is a warning and keeping or adding qualifiers is exact. */
  lemma PointerQualifierRule(p: Type, q1: Cv, t: Type, q2: Cv)
    requires !HasTypedef(p) && !HasTypedef(t)
    requires !p.Void? && !p.IsFunction() && !t.Void? && !t.IsFunction()
    requires IsCompatibleWith(p.Unqualified(), t.Unqualified())
    ensures CanCast(Pointer(p, q1), Pointer(t, q2)) ==
      if Qualifiers(p.Quals()) <= Qualifiers(t.Quals()) then CAST_OK_EXACT else CAST_DISCARD_QUALIFIER
  {
    QualificationOrder(p.Quals(), t.Quals());
  }

  /** Pointers to incompatible object types are a warning of their own. */
  lemma IncompatiblePointees(p: Type, q1: Cv, t: Type, q2: Cv)
    requires !HasTypedef(p) && !HasTypedef(t)
    requires !p.Void? && !p.IsFunction() && !t.Void? && !t.IsFunction()
    requires !IsCompatibleWith(p.Unqualified(), t.Unqualified())
    ensures CanCast(Pointer(p, q1), Pointer(t, q2)) == CAST_INCOMPATIBLE_POINTERS
  {
  }

  /** Every canonical type is compatible with itself. */
  lemma {:induction false} CompatibleReflexive(t: Type)
    requires !HasTypedef(t)
    ensures Compatible(t, t)
  {
    match t
    case Pointer(p, _) => CompatibleReflexive(p);
    case ConstantArray(e, _) => CompatibleReflexive(e);
    case IncompleteArray(e) => CompatibleReflexive(e);
    case FunctionProto(res, args, _) =>
      CompatibleReflexive(res);
      forall i | 0 <= i < |args|
        ensures Compatible(args[i], args[i])
      {
        CompatibleReflexive(args[i]);
      }
    case FunctionNoProto(res) => CompatibleReflexive(res);
    case _ =>
  }

  /** Compatibility is symmetric. */
  lemma {:induction false} CompatibleSymmetric(a: Type, b: Type)
    requires Compatible(a, b)
    ensures Compatible(b, a)
  {
    match a
    case Pointer(p, _) => CompatibleSymmetric(p, b.Pointee());
    case ConstantArray(e, _) => CompatibleSymmetric(e, b.Pointee());
    case IncompleteArray(e) => CompatibleSymmetric(e, b.Pointee());
    case FunctionProto(res, args, _) =>
      CompatibleSymmetric(res, b.resultType);
      if b.FunctionProto? && |args| == |b.argTypes| && forall i :: 0 <= i < |args| ==> Compatible(args[i], b.argTypes[i]) {
        forall i | 0 <= i < |args|
          ensures Compatible(b.argTypes[i], args[i])
        {
          CompatibleSymmetric(args[i], b.argTypes[i]);
        }
      }
    case FunctionNoProto(res) => CompatibleSymmetric(res, b.resultType);
    case Numeric(_, _) =>
      CodeInjective(a.kind, b.kind);
    case _ =>
  }

  /** A type can be cast to itself exactly, unless it is a function type. */
  lemma CastReflexive(t: Type)
    requires !Canonical(t).IsFunction()
    ensures CanCast(t, t) == CAST_OK_EXACT
  {
    var c := Canonical(t);
    if c.IsPointerlike() {
      var p := c.Pointee();
      CompatibleReflexive(Canonical(p.Unqualified()));
      QualificationOrder(p.Quals(), p.Quals());
    }
  }

  /** Two prototypes are compatible only if their argument types are,
      pair by pair (after typedefs are removed from each). */
  lemma PrototypeArgumentsCompatible(r1: Type, a1: seq<Type>, v1: bool, r2: Type, a2: seq<Type>, v2: bool)
    requires IsCompatibleWith(FunctionProto(r1, a1, v1), FunctionProto(r2, a2, v2))
    ensures |a1| == |a2|
    ensures forall i :: 0 <= i < |a1| ==> IsCompatibleWith(a1[i], a2[i])
  {
    var f1, f2 := FunctionProto(r1, a1, v1), FunctionProto(r2, a2, v2);
    CanonicalIsHelper(f1);
    CanonicalIsHelper(f2);
    var c1, c2 := CanonicalHelper(f1), CanonicalHelper(f2);
    assert c1.FunctionProto? && c2.FunctionProto?;
    assert |c1.argTypes| == |a1| && |c2.argTypes| == |a2|;
    assert Compatible(c1, c2);
    assert |c1.argTypes| == |c2.argTypes|;
    forall i | 0 <= i < |a1|
      ensures IsCompatibleWith(a1[i], a2[i])
    {
      assert c1.argTypes[i] == CanonicalHelper(a1[i]) && c2.argTypes[i] == CanonicalHelper(a2[i]);
      assert Compatible(c1.argTypes[i], c2.argTypes[i]);
      CanonicalIsHelper(a1[i]);
      CanonicalIsHelper(a2[i]);
    }
  }

  /** As written, `int (int)` and `int (int *)` count as compatible, so a
      pointer to one casts exactly to a pointer to the other; with the
      argument types compared they are incompatible pointees. */
  lemma CompatibleAsWrittenCounterexample()
    ensures var i := Numeric(INT, 0);
      var f1 := FunctionProto(i, [i], false);
      var f2 := FunctionProto(i, [Pointer(i, 0)], false);
      IsCompatibleWithAsWritten(f1, f2) && !IsCompatibleWith(f1, f2)
      && CanCastPointerAsWritten(Canonical(Pointer(f1, 0)), Canonical(Pointer(f2, 0))) == CAST_OK_EXACT
      && CanCast(Pointer(f1, 0), Pointer(f2, 0)) == CAST_INCOMPATIBLE_POINTERS
  {
    var i := Numeric(INT, 0);
    var f1 := FunctionProto(i, [i], false);
    var f2 := FunctionProto(i, [Pointer(i, 0)], false);
    assert !HasTypedef(i) && !HasTypedef(Pointer(i, 0));
    assert !HasTypedef(f1) by {
      assert forall k :: 0 <= k < |f1.argTypes| ==> f1.argTypes[k] == i;
    }
    assert !HasTypedef(f2) by {
      assert forall k :: 0 <= k < |f2.argTypes| ==> f2.argTypes[k] == Pointer(i, 0);
    }
    assert !HasTypedef(Pointer(f1, 0)) && !HasTypedef(Pointer(f2, 0));
    assert !Compatible(f1.argTypes[0], f2.argTypes[0]);
  }
}
