/** The native runtime's PP_Var helpers (src/c/var.c): the scalar decoders,
    the tagged-array checks and the `["long", low, high]` encoding of 64-bit
    integers. */
module VarCodec {
  import opened Ints
  import opened Wrappers
  import opened PpVar

  const LONG_TAG: string := "long"

  /** `nb_var_tagged_array`: an array of at least one element whose first
      element is a string; yields that tag and the array length. */
  function TaggedArray(v: Var): (r: Option<(string, nat)>)
    ensures r.Some? <==> v.Arr? && |v.elems| >= 1 && v.elems[0].Str?
    ensures r.Some? ==> r.value.0 == v.elems[0].s && r.value.1 == |v.elems|
  {
    if !v.Arr? then None
    else if |v.elems| < 1 then None
    else if !v.elems[0].Str? then None
    else Some((v.elems[0].s, |v.elems|))
  }

  /** `nb_var_tagged_array_check`: a tagged array with exactly the expected
      tag and length. */
  predicate TaggedArrayCheck(v: Var, tag: string, length: nat)
  {
    match TaggedArray(v)
    case None => false
    case Some((t, n)) => n == length && |t| == |tag| && t == tag
  }

  lemma TaggedArrayCheckMeans(v: Var, tag: string, length: nat)
    ensures TaggedArrayCheck(v, tag, length) <==>
      v.Arr? && |v.elems| == length && length >= 1 && v.elems[0] == Str(tag)
  {
  }

  /** The two 32-bit halves `nb_var_int64_create` stores: the low word cast
      to int32 and the arithmetic right shift by 32. */
  function LowHalf(x: Int64): Int32 { ToInt32(x % TWO_32) }

  function HighHalf(x: Int64): (h: Int32)
  {
    x / TWO_32
  }

  /** The array `nb_var_int64_create` builds. */
  function Int64Var(x: Int64): Var
  {
    Arr([Str(LONG_TAG), I32(LowHalf(x)), I32(HighHalf(x))])
  }

  /** `nb_var_int64_create`: builds the tagged array by three successive
      sets on an empty array. */
  method Int64Create(x: Int64) returns (r: Var)
    ensures r == Int64Var(x)
    ensures TaggedArrayCheck(r, LONG_TAG, 3)
  {
    var elems: seq<Var> := [];
    elems := ArraySet(elems, 0, Str(LONG_TAG));
    elems := ArraySet(elems, 1, I32(ToInt32(x % TWO_32)));
    elems := ArraySet(elems, 2, I32(x / TWO_32));
    r := Arr(elems);
    assert elems == [Str(LONG_TAG), I32(LowHalf(x)), I32(HighHalf(x))];
  }

  /** The scalar decoders `nb_var_int8` ... `nb_var_uint32`: an INT32 var,
      converted to the target C type. */
  function DecodeNarrow(v: Var, w: Width, signed: bool): (r: Option<int>)
    ensures r.Some? <==> TypeOf(v) == INT32
    ensures r.Some? ==> Fits(r.value, w, signed)
  {
    if v.I32? then Some(Convert(v.i, w, signed)) else None
  }

  /** A stored value that fits the target type is decoded unchanged. */
  lemma DecodeNarrowExact(v: Var, w: Width, signed: bool)
    requires v.I32? && Fits(v.i, w, signed)
    ensures DecodeNarrow(v, w, signed) == Some(v.i)
  {
    ConvertFits(v.i, w, signed);
  }

  /** The 64-bit value whose upper and lower words are `upper` and `lower`. */
  function FromWords(upper: Uint32, lower: Uint32): Int64
  {
    ToInt64(upper * TWO_32 + lower)
  }

  /** Line 258 as written: `((int64_t)high << 32) | low`, where `low` is a
      signed int32 and so is sign-extended before the OR. When `low` is
      negative its sign extension sets every bit of the upper word. */
  function CombineAsWritten(high: Int32, low: Int32): Int64
  {
    var signExtension: Uint32 := if low < 0 then 0xFFFF_FFFF else 0;
    FromWords(Or32(ToUint32(high), signExtension), ToUint32(low))
  }

  /** The intended combination: `((int64_t)high << 32) | (uint32_t)low`. */
  function Combine(high: Int32, low: Int32): Int64
  {
    FromWords(ToUint32(high), ToUint32(low))
  }

  /** The shared validation of `nb_var_int64`: a "long" array of exactly
      three elements whose halves are both INT32; yields (high, low). */
  function LongHalves(v: Var): (r: Option<(Int32, Int32)>)
    ensures r.Some? <==>
      TaggedArrayCheck(v, LONG_TAG, 3) && v.elems[1].I32? && v.elems[2].I32?
    ensures r.Some? ==> r.value == (v.elems[2].i, v.elems[1].i)
  {
    if !TaggedArrayCheck(v, LONG_TAG, 3) then None
    else if !v.elems[1].I32? then None
    else if !v.elems[2].I32? then None
    else Some((v.elems[2].i, v.elems[1].i))
  }

  /** `nb_var_int64` as written. */
  function Int64AsWritten(v: Var): Option<Int64>
  {
    match LongHalves(v)
    case None => None
    case Some((high, low)) => Some(CombineAsWritten(high, low))
  }

  /** `nb_var_int64` with the low half zero-extended; the rest of the model
      decodes "long" arrays with this function. */
  function Int64(v: Var): Option<Int64>
  {
    match LongHalves(v)
    case None => None
    case Some((high, low)) => Some(Combine(high, low))
  }

  /** `nb_var_uint64`: the int64 decode reinterpreted as unsigned. */
  function Uint64(v: Var): (r: Option<Uint64>)
    ensures r.Some? <==> Int64(v).Some?
  {
    match Int64(v)
    case None => None
    case Some(x) => Some(ToUint64(x))
  }

  lemma Or32Zero(a: Uint32)
    ensures Or32(a, 0) == a
  {
    Pow2Values();
    OrZero(a, 32);
  }

  lemma Or32Ones(a: Uint32)
    ensures Or32(a, 0xFFFF_FFFF) == 0xFFFF_FFFF
  {
    Pow2Values();
    OrOnes(a, 32);
  }

  /** The halves of `x` put back together give `x`. */
  lemma CombineHalves(x: Int64)
    ensures Combine(HighHalf(x), LowHalf(x)) == x
  {
    var lo, hi := x % TWO_32, x / TWO_32;
    LowHalfAsUint32(x);
    if hi < 0 {
      NegativeAsUint32(hi);
      NegativeUpperWord(x);
    } else {
      ConvertFits(hi, W32, false);
      NonNegativeUpperWord(x);
    }
  }

  /** The low half read back as uint32 is the low word of `x`. */
  lemma LowHalfAsUint32(x: Int64)
    ensures ToUint32(LowHalf(x)) == x % TWO_32
  {
    var lo := x % TWO_32;
    if lo >= TWO_31 {
      assert LowHalf(x) == lo - TWO_32;
      assert (lo - TWO_32) % TWO_32 == lo;
    } else {
      assert LowHalf(x) == lo;
    }
  }

  lemma NonNegativeUpperWord(x: Int64)
    requires x >= 0
    ensures FromWords(x / TWO_32, x % TWO_32) == x
  {
    assert x / TWO_32 * TWO_32 + x % TWO_32 == x;
    assert x % TWO_64 == x;
  }

  lemma NegativeUpperWord(x: Int64)
    requires x < 0
    ensures FromWords(x / TWO_32 + TWO_32, x % TWO_32) == x
  {
    var bits := (x / TWO_32 + TWO_32) * TWO_32 + x % TWO_32;
    assert bits == x + TWO_64 by {
      assert x / TWO_32 * TWO_32 + x % TWO_32 == x;
    }
    assert bits % TWO_64 == bits;
  }

  /** `Int64Var(x)` passes the checks of `nb_var_int64` and yields its two
      halves. */
  lemma LongHalvesOfInt64Var(x: Int64)
    ensures LongHalves(Int64Var(x)) == Some((HighHalf(x), LowHalf(x)))
  {
    TaggedArrayCheckMeans(Int64Var(x), LONG_TAG, 3);
  }

  /** Decoding what `nb_var_int64_create` builds gives back the value, for
      every 64-bit integer. */
  lemma {:induction false} Int64RoundTrip(x: Int64)
    ensures Int64(Int64Var(x)) == Some(x)
  {
    LongHalvesOfInt64Var(x);
    CombineHalves(x);
  }

  /** The same holds for unsigned values, which `nb_handle_convert_to_var`
      first casts to int64. */
  lemma Uint64RoundTrip(u: Uint64)
    ensures Uint64(Int64Var(ToInt64(u))) == Some(u)
  {
    Int64RoundTrip(ToInt64(u));
    Uint64ThroughInt64(u);
  }

  /** With a negative low half, the sign extension fills the upper word,
      so the result is the low half alone. */
  lemma CombineAsWrittenNegative(high: Int32, low: Int32)
    requires low < 0
    ensures CombineAsWritten(high, low) == low
  {
    var upper := ToUint32(high);
    assert CombineAsWritten(high, low) == FromWords(Or32(upper, 0xFFFF_FFFF), ToUint32(low));
    Or32Ones(upper);
    NegativeAsUint32(low);
    AllOnesUpperWord(ToUint32(low));
  }

  lemma CombineAsWrittenNonNegative(high: Int32, low: Int32)
    requires low >= 0
    ensures CombineAsWritten(high, low) == Combine(high, low)
  {
    var upper := ToUint32(high);
    assert CombineAsWritten(high, low) == FromWords(Or32(upper, 0), ToUint32(low));
    Or32Zero(upper);
  }

  /** A negative int32 read as uint32 is 2^32 above itself. */
  lemma NegativeAsUint32(x: Int32)
    requires x < 0
    ensures ToUint32(x) == x + TWO_32
  {
    assert x % TWO_32 == x + TWO_32;
  }

  /** An upper word of all ones and a lower word with bit 31 set make the
      negative int64 that the lower word is as an int32. */
  lemma AllOnesUpperWord(lower: Uint32)
    requires lower >= TWO_31
    ensures FromWords(0xFFFF_FFFF, lower) == lower - TWO_32
  {
    var bits := 0xFFFF_FFFF * TWO_32 + lower;
    assert bits == TWO_64 - TWO_32 + lower;
    assert bits % TWO_64 == bits;
  }

  /** As written, the round trip holds exactly when bit 31 of the value is
      clear, or the value lies in [-2^31, 0) (where the sign extension
      happens to rebuild the upper word). */
  lemma Int64AsWrittenRoundTrip(x: Int64)
    ensures Int64AsWritten(Int64Var(x)) == Some(x) <==>
      x % TWO_32 < TWO_31 || -TWO_31 <= x < 0
  {
    LongHalvesOfInt64Var(x);
    CombineAsWrittenHalves(x);
  }

  lemma CombineAsWrittenHalves(x: Int64)
    ensures CombineAsWritten(HighHalf(x), LowHalf(x)) == x <==>
      x % TWO_32 < TWO_31 || -TWO_31 <= x < 0
  {
    var high, low := HighHalf(x), LowHalf(x);
    if low < 0 {
      CombineAsWrittenNegative(high, low);
      SplitNegativeLow(x);
    } else {
      CombineAsWrittenNonNegative(high, low);
      CombineHalves(x);
      NonNegativeLow(x);
    }
  }

  /** Arithmetic behind the case of a non-negative low half. */
  lemma NonNegativeLow(x: Int64)
    requires LowHalf(x) >= 0
    ensures x % TWO_32 < TWO_31
  {
  }

  /** Arithmetic behind the case of a negative low half. */
  lemma SplitNegativeLow(x: Int64)
    requires LowHalf(x) < 0
    ensures x % TWO_32 >= TWO_31
    ensures LowHalf(x) == x <==> -TWO_31 <= x < 0
  {
    var lo, hi := x % TWO_32, x / TWO_32;
    assert x == hi * TWO_32 + lo;
    assert LowHalf(x) == lo - TWO_32;
    if hi == -1 {
      assert LowHalf(x) == x;
    } else if hi < -1 {
      assert x < lo - TWO_32;
    } else {
      assert x >= lo;
    }
  }

  /** A concrete value that does not survive the as-written round trip:
      2^31 comes back as -2^31. */
  lemma Int64AsWrittenCounterexample()
    ensures Int64Var(TWO_31) == Arr([Str(LONG_TAG), I32(-TWO_31), I32(0)])
    ensures Int64AsWritten(Int64Var(TWO_31)) == Some(-TWO_31)
  {
    TaggedArrayCheckMeans(Int64Var(TWO_31), LONG_TAG, 3);
    CombineAsWrittenNegative(0, -TWO_31);
  }
}
