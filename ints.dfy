/** Fixed-width machine integers. Dafny integers are unbounded, so every
    width, wrap-around and truncating cast of the C and JavaScript code is
    written out here. */
module Ints {
  const TWO_7: int := 0x80
  const TWO_8: int := 0x100
  const TWO_15: int := 0x8000
  const TWO_16: int := 0x1_0000
  const TWO_31: int := 0x8000_0000
  const TWO_32: int := 0x1_0000_0000
  const TWO_63: int := 0x8000_0000_0000_0000
  const TWO_64: int := 0x1_0000_0000_0000_0000

  type Int32 = x: int | -0x8000_0000 <= x < 0x8000_0000
  type Uint32 = x: int | 0 <= x < 0x1_0000_0000
  type Int64 = x: int | -0x8000_0000_0000_0000 <= x < 0x8000_0000_0000_0000
  type Uint64 = x: int | 0 <= x < 0x1_0000_0000_0000_0000

  /** The widths of C's integer types. */
  datatype Width = W8 | W16 | W32 | W64

  function Modulus(w: Width): (m: int)
    ensures m > 1 && m % 2 == 0
  {
    match w
    case W8 => TWO_8
    case W16 => TWO_16
    case W32 => TWO_32
    case W64 => TWO_64
  }

  /** Smallest and largest value of a signed or unsigned type of width `w`. */
  function MinOf(w: Width, signed: bool): int
  {
    if signed then -(Modulus(w) / 2) else 0
  }

  function MaxOf(w: Width, signed: bool): int
  {
    if signed then Modulus(w) / 2 - 1 else Modulus(w) - 1
  }

  predicate Fits(x: int, w: Width, signed: bool)
  {
    MinOf(w, signed) <= x <= MaxOf(w, signed)
  }

  /** A C conversion to the integer type of width `w`: the low bits of `x`,
      read as unsigned or as two's complement. */
  function Convert(x: int, w: Width, signed: bool): (r: int)
    ensures Fits(r, w, signed)
  {
    var u := x % Modulus(w);
    if signed && u >= Modulus(w) / 2 then u - Modulus(w) else u
  }

  /** Converting a value the target type can hold leaves it unchanged. */
  lemma ConvertFits(x: int, w: Width, signed: bool)
    requires Fits(x, w, signed)
    ensures Convert(x, w, signed) == x
  {
    match w
    case W8 => assert x % TWO_8 == if x >= 0 then x else x + TWO_8;
    case W16 => assert x % TWO_16 == if x >= 0 then x else x + TWO_16;
    case W32 => assert x % TWO_32 == if x >= 0 then x else x + TWO_32;
    case W64 => assert x % TWO_64 == if x >= 0 then x else x + TWO_64;
  }

  function ToInt32(x: int): Int32 { Convert(x, W32, true) }
  function ToUint32(x: int): Uint32 { Convert(x, W32, false) }
  function ToInt64(x: int): Int64 { Convert(x, W64, true) }
  function ToUint64(x: int): Uint64 { Convert(x, W64, false) }

  /** Reading a 64-bit pattern as signed and back as unsigned is lossless. */
  lemma Uint64ThroughInt64(u: Uint64)
    ensures ToUint64(ToInt64(u)) == u
  {
    if u < TWO_63 {
      ConvertFits(u, W64, true);
    } else {
      assert ToInt64(u) == u - TWO_64;
    }
  }

  function Pow2(n: nat): (p: nat)
    ensures p >= 1
  {
    if n == 0 then 1 else 2 * Pow2(n - 1)
  }

  lemma Pow2Values()
    ensures Pow2(16) == TWO_16 && Pow2(32) == TWO_32 && Pow2(64) == TWO_64
  {
    assert Pow2(4) == 16;
    Pow2Add(4, 4);
    Pow2Add(8, 8);
    Pow2Add(16, 16);
    Pow2Add(32, 32);
  }

  lemma {:induction false} Pow2Add(m: nat, n: nat)
    ensures Pow2(m + n) == Pow2(m) * Pow2(n)
  {
    if m > 0 {
      Pow2Add(m - 1, n);
    }
  }

  /** The binary bitwise operators `&`, `|` and `^` of C and JavaScript. */
  datatype BitOp = AndOp | OrOp | XorOp
  {
    /** The operator on one bit of each operand. */
    function Apply(p: bool, q: bool): bool
    {
      match this
      case AndOp => p && q
      case OrOp => p || q
      case XorOp => p != q
    }
  }

  /** A bitwise operator on the low `n` bits: bit `i` of the result, for
      `i < n`, is `op` of bit `i` of `a` and bit `i` of `b`. */
  function Bitwise(op: BitOp, a: nat, b: nat, n: nat): nat
  {
    if n == 0 then 0 else LowBit(op, a, b) + 2 * Bitwise(op, a / 2, b / 2, n - 1)
  }

  /** Bit 0 of the result. */
  function LowBit(op: BitOp, a: nat, b: nat): nat
  {
    if op.Apply(a % 2 == 1, b % 2 == 1) then 1 else 0
  }

  lemma {:induction false} BitwiseBound(op: BitOp, a: nat, b: nat, n: nat)
    ensures Bitwise(op, a, b, n) < Pow2(n)
  {
    if n > 0 {
      BitwiseBound(op, a / 2, b / 2, n - 1);
    }
  }

  /** Bitwise OR of two 32-bit words. */
  function Or32(a: Uint32, b: Uint32): Uint32
  {
    Pow2Values();
    BitwiseBound(OrOp, a, b, 32);
    Bitwise(OrOp, a, b, 32)
  }

  /** OR with zero keeps an `n`-bit word. */
  lemma {:induction false} OrZero(a: nat, n: nat)
    requires a < Pow2(n)
    ensures Bitwise(OrOp, a, 0, n) == a
  {
    if n > 0 {
      assert a / 2 < Pow2(n - 1);
      OrZero(a / 2, n - 1);
    }
  }

  /** OR with all `n` bits set gives all `n` bits set. */
  lemma {:induction false} OrOnes(a: nat, n: nat)
    ensures Bitwise(OrOp, a, Pow2(n) - 1, n) == Pow2(n) - 1
  {
    if n > 0 {
      var half := Pow2(n - 1) - 1;
      assert Pow2(n) - 1 == 2 * half + 1;
      assert (Pow2(n) - 1) / 2 == half && (Pow2(n) - 1) % 2 == 1;
      OrOnes(a / 2, n - 1);
    }
  }
}
