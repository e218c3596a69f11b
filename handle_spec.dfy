/** The values the native handle map stores (src/c/handle.c), the numeric
    narrowing its typed getters perform, and the conversion of a handle's
    value back to a PP_Var. */
module HandleValues {
  import opened Ints
  import opened Wrappers
  import PpVar
  import VarCodec

  type Handle = Int32

  /** The runtime's `Type` enumeration. */
  datatype CType =
    | INVALID | INT8 | UINT8 | INT16 | UINT16 | INT32 | UINT32 | INT64 | UINT64
    | FLOAT | DOUBLE | VOID_P | FUNC_P | VAR

  predicate IsIntType(t: CType)
  {
    t in {INT8, UINT8, INT16, UINT16, INT32, UINT32, INT64, UINT64}
  }

  function WidthOf(t: CType): Width
    requires IsIntType(t)
  {
    match t
    case INT8 => W8
    case UINT8 => W8
    case INT16 => W16
    case UINT16 => W16
    case INT32 => W32
    case UINT32 => W32
    case _ => W64
  }

  predicate IsSigned(t: CType)
  {
    t in {INT8, INT16, INT32, INT64}
  }

  /** `to_type##_MIN` and `to_type##_MAX` of the getters. */
  function MinOfType(t: CType): int
    requires IsIntType(t)
  {
    MinOf(WidthOf(t), IsSigned(t))
  }

  function MaxOfType(t: CType): int
    requires IsIntType(t)
  {
    MaxOf(WidthOf(t), IsSigned(t))
  }

  predicate FitsType(n: int, t: CType)
    requires IsIntType(t)
  {
    MinOfType(t) <= n <= MaxOfType(t)
  }

  /** The `union HandleValue` together with the object's type tag. Floating
      point values are kept as reals; a void pointer is a 32-bit address
      with 0 for NULL. */
  datatype Value =
    | IntValue(t: CType, n: int)
    | FloatValue(x: real)
    | DoubleValue(x: real)
    | VoidPtr(addr: Uint32)
    | FuncPtr(addr: Uint32)
    | VarValue(v: PpVar.Var)

  /** What the C types of the `nb_handle_register_*` parameters guarantee. */
  predicate WellTyped(value: Value)
  {
    value.IntValue? ==> IsIntType(value.t) && FitsType(value.n, value.t)
  }

  function TypeOfValue(value: Value): CType
  {
    match value
    case IntValue(t, _) => t
    case FloatValue(_) => FLOAT
    case DoubleValue(_) => DOUBLE
    case VoidPtr(_) => VOID_P
    case FuncPtr(_) => FUNC_P
    case VarValue(_) => VAR
  }

  /** The range checks the `CHECK_<to>_<from>` macros select. */
  datatype Check = NoCheck | CheckBoth | CheckMax | CheckGtZero | CheckMaxGtZero

  function IntCheck(to: CType, from: CType): Check
    requires IsIntType(to) && IsIntType(from)
  {
    match (to, from)
    case (INT8, INT8) => NoCheck
    case (INT8, INT16) => CheckBoth
    case (INT8, INT32) => CheckBoth
    case (INT8, INT64) => CheckBoth
    case (INT8, UINT8) => CheckMax
    case (INT8, UINT16) => CheckMax
    case (INT8, UINT32) => CheckMax
    case (INT8, UINT64) => CheckMax
    case (UINT8, INT8) => CheckGtZero
    case (UINT8, INT16) => CheckMaxGtZero
    case (UINT8, INT32) => CheckMaxGtZero
    case (UINT8, INT64) => CheckMaxGtZero
    case (UINT8, UINT8) => NoCheck
    case (UINT8, UINT16) => CheckMax
    case (UINT8, UINT32) => CheckMax
    case (UINT8, UINT64) => CheckMax
    case (INT16, INT8) => NoCheck
    case (INT16, INT16) => NoCheck
    case (INT16, INT32) => CheckBoth
    case (INT16, INT64) => CheckBoth
    case (INT16, UINT8) => NoCheck
    case (INT16, UINT16) => CheckMax
    case (INT16, UINT32) => CheckMax
    case (INT16, UINT64) => CheckMax
    case (UINT16, INT8) => CheckGtZero
    case (UINT16, INT16) => CheckGtZero
    case (UINT16, INT32) => CheckMaxGtZero
    case (UINT16, INT64) => CheckMaxGtZero
    case (UINT16, UINT8) => NoCheck
    case (UINT16, UINT16) => NoCheck
    case (UINT16, UINT32) => CheckBoth
    case (UINT16, UINT64) => CheckBoth
    case (INT32, INT8) => NoCheck
    case (INT32, INT16) => NoCheck
    case (INT32, INT32) => NoCheck
    case (INT32, INT64) => CheckBoth
    case (INT32, UINT8) => NoCheck
    case (INT32, UINT16) => NoCheck
    case (INT32, UINT32) => CheckMax
    case (INT32, UINT64) => CheckMax
    case (UINT32, INT8) => CheckGtZero
    case (UINT32, INT16) => CheckGtZero
    case (UINT32, INT32) => CheckGtZero
    case (UINT32, INT64) => CheckMaxGtZero
    case (UINT32, UINT8) => NoCheck
    case (UINT32, UINT16) => NoCheck
    case (UINT32, UINT32) => NoCheck
    case (UINT32, UINT64) => CheckBoth
    case (INT64, UINT64) => CheckMax
    case (INT64, _) => NoCheck
    case (UINT64, INT8) => CheckGtZero
    case (UINT64, INT16) => CheckGtZero
    case (UINT64, INT32) => CheckGtZero
    case (UINT64, INT64) => CheckGtZero
    case (UINT64, _) => NoCheck
  }

  predicate PassesCheck(check: Check, to: CType, n: int)
    requires IsIntType(to)
  {
    match check
    case NoCheck => true
    case CheckBoth => MinOfType(to) <= n <= MaxOfType(to)
    case CheckMax => n <= MaxOfType(to)
    case CheckGtZero => n >= 0
    case CheckMaxGtZero => 0 <= n <= MaxOfType(to)
  }

  /** `CHECK_FLOAT_TO_INT` / `CHECK_DOUBLE_TO_INT`: in range and integral. */
  predicate RealFits(x: real, to: CType)
    requires IsIntType(to)
  {
    MinOfType(to) as real <= x <= MaxOfType(to) as real && x == x.Floor as real
  }

  /** `TYPE_SWITCH(to)` of the integer getters `nb_handle_get_int8` ...
      `nb_handle_get_uint64`. */
  function GetIntFrom(value: Value, to: CType): Option<int>
    requires IsIntType(to)
  {
    match value
    case IntValue(from, n) =>
      if IsIntType(from) && PassesCheck(IntCheck(to, from), to, n) then Some(n) else None
    case FloatValue(x) => if RealFits(x, to) then Some(x.Floor) else None
    case DoubleValue(x) => if RealFits(x, to) then Some(x.Floor) else None
    case _ => None
  }

  /** The check table is exactly a range check: an integer getter succeeds
      iff the stored value fits the target type, and then returns it
      unchanged. */
  lemma GetIntIffFits(from: CType, n: int, to: CType)
    requires IsIntType(to) && IsIntType(from) && FitsType(n, from)
    ensures GetIntFrom(IntValue(from, n), to) == if FitsType(n, to) then Some(n) else None
  {
  }

  const FLOAT_MAX_24: int := 0xff_ffff
  const DOUBLE_MAX_53: int := 0x1f_ffff_ffff_ffff

  /** `TYPE_SWITCH(TYPE_FLOAT)` and `TYPE_SWITCH(TYPE_DOUBLE)`: integers are
      accepted when they lie within the float's 24-bit or the double's
      53-bit mantissa. */
  function GetRealFrom(value: Value, toDouble: bool): Option<real>
  {
    match value
    case IntValue(from, n) =>
      var limit := if toDouble then DOUBLE_MAX_53 else FLOAT_MAX_24;
      var checked := if toDouble then from in {INT64, UINT64} else from in {INT32, INT64, UINT32, UINT64};
      if !IsIntType(from) then None
      else if checked && IsSigned(from) && !(-limit <= n <= limit) then None
      else if checked && !IsSigned(from) && n > limit then None
      else Some(n as real)
    case FloatValue(x) => Some(x)
    case DoubleValue(x) => Some(x)
    case _ => None
  }

  /** A float getter accepts an integer exactly when its magnitude is
      below the mantissa limit or its type is too narrow to exceed it. */
  lemma GetRealIff(from: CType, n: int, toDouble: bool)
    requires IsIntType(from) && FitsType(n, from)
    ensures GetRealFrom(IntValue(from, n), toDouble).Some? <==>
      -(if toDouble then DOUBLE_MAX_53 else FLOAT_MAX_24) <= n <= (if toDouble then DOUBLE_MAX_53 else FLOAT_MAX_24)
  {
  }

  /** What `nb_handle_get_voidp` and `nb_handle_get_charp` hand out: a raw
      address, or a NUL-terminated copy of a string var. */
  datatype Pointer = Address(addr: Uint32) | StringCopy(s: string)

  /** `strndup(str, len)`: the string up to its first NUL. */
  function UpToNul(s: string): (r: string)
    ensures |r| <= |s| && r == s[..|r|]
    ensures '\0' !in r
    ensures |r| < |s| ==> s[|r|] == '\0'
  {
    if |s| == 0 || s[0] == '\0' then [] else [s[0]] + UpToNul(s[1..])
  }

  function GetPointerFrom(value: Value): (r: Option<Pointer>)
    ensures r.Some? <==> value.VoidPtr? || (value.VarValue? && value.v.Str?)
  {
    match value
    case VarValue(v) => if v.Str? then Some(StringCopy(UpToNul(v.s))) else None
    case VoidPtr(a) => Some(Address(a))
    case _ => None
  }

  /** `nb_handle_get_var`. */
  function GetVarFrom(value: Value): (r: Option<PpVar.Var>)
    ensures r.Some? <==> value.VarValue?
  {
    if value.VarValue? then Some(value.v) else None
  }

  /** `nb_handle_convert_to_var` once the handle has been found. */
  function ConvertToVar(handle: Handle, value: Value): (r: Option<PpVar.Var>)
    ensures r.None? <==> value.FuncPtr? || (value.IntValue? && !IsIntType(value.t))
    ensures value.VoidPtr? && value.addr != 0 ==> r == Some(PpVar.I32(handle))
    ensures value.VoidPtr? && value.addr == 0 ==> r == Some(PpVar.Null)
  {
    match value
    case IntValue(t, n) =>
      if t in {INT8, UINT8, INT16, UINT16, INT32, UINT32} then Some(PpVar.I32(ToInt32(n)))
      else if t == INT64 then Some(VarCodec.Int64Var(ToInt64(n)))
      else if t == UINT64 then Some(VarCodec.Int64Var(ToInt64(n)))
      else None
    case FloatValue(x) => Some(PpVar.Dbl(x))
    case DoubleValue(x) => Some(PpVar.Dbl(x))
    case VarValue(v) => Some(v)
    case VoidPtr(a) => if a != 0 then Some(PpVar.I32(handle)) else Some(PpVar.Null)
    case FuncPtr(_) => None
  }

  /** The var a handle converts to decodes, with the decoder for the
      handle's own type, back to the handle's value. */
  lemma {:induction false} ConvertToVarRoundTrip(handle: Handle, t: CType, n: int)
    requires IsIntType(t) && FitsType(n, t)
    ensures ConvertToVar(handle, IntValue(t, n)).Some?
    ensures t !in {INT64, UINT64} ==>
      VarCodec.DecodeNarrow(ConvertToVar(handle, IntValue(t, n)).value, WidthOf(t), IsSigned(t)) == Some(n)
    ensures t == INT64 ==> VarCodec.Int64(ConvertToVar(handle, IntValue(t, n)).value) == Some(n)
    ensures t == UINT64 ==> VarCodec.Uint64(ConvertToVar(handle, IntValue(t, n)).value) == Some(n)
  {
    if t == INT64 {
      ConvertFits(n, W64, true);
      VarCodec.Int64RoundTrip(n);
    } else if t == UINT64 {
      VarCodec.Uint64RoundTrip(n);
    } else {
      var v := ToInt32(n);
      assert ConvertToVar(handle, IntValue(t, n)) == Some(PpVar.I32(v));
      if IsSigned(t) {
        ConvertFits(n, W32, true);
        ConvertFits(n, WidthOf(t), true);
      } else {
        var w := WidthOf(t);
        if n < TWO_31 {
          ConvertFits(n, W32, true);
        } else {
          assert v == n - TWO_32;
        }
        ConvertFits(n, w, false);
        assert Convert(v, w, false) == n;
      }
    }
  }

  /** The var types `nb_handle_register_var` accepts. */
  predicate RegistrableVar(v: PpVar.Var)
  {
    PpVar.TypeOf(v) in {PpVar.ARRAY_BUFFER, PpVar.ARRAY, PpVar.DICTIONARY, PpVar.STRING}
  }
}
