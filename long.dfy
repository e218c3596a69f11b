/** The `Long` class of src/js/naclbind.js: a 64-bit two's-complement
    integer kept as two signed 32-bit halves, `low_` and `high_`, the way
    JavaScript's bitwise operators leave them. Every operation is proved
    against the integer the pair stands for, `high_ * 2^32 + (low_ mod 2^32)`,
    with 64-bit wrap-around written out. */
module JsLong {
  import opened Ints

  datatype Long = Long(low: Int32, high: Int32)

  /** The unsigned reading of a 32-bit pattern (what `>>> 0` gives). */
  function U(x: Int32): Uint32 { if x < 0 then x + TWO_32 else x }

  /** The signed reading of a 32-bit pattern (what `| 0` gives). */
  function S(u: Uint32): Int32 { if u >= TWO_31 then u - TWO_32 else u }

  /** The integer a pair stands for. */
  function Value(x: Long): Int64
  {
    x.high * TWO_32 + U(x.low)
  }

  /** `Long.fromBits` of the halves of a 64-bit value: the inverse of
      `Value`. */
  function FromValue(v: Int64): (x: Long)
    ensures Value(x) == v
  {
    Long(S(v % TWO_32), v / TWO_32)
  }

  lemma ValueInjective(x: Long, y: Long)
    requires Value(x) == Value(y)
    ensures x == y
  {
    assert U(x.low) == Value(x) % TWO_32 && U(y.low) == Value(y) % TWO_32;
    assert x.high == Value(x) / TWO_32 && y.high == Value(y) / TWO_32;
    assert x.low == S(U(x.low)) && y.low == S(U(y.low));
  }

  const ZERO: Long := Long(0, 0)
  const ONE: Long := Long(1, 0)
  const NEG_ONE: Long := Long(-1, -1)
  /** `Long.TWO_PWR_24_`. */
  const TWO_24: int := 0x100_0000
  /** `Long.MIN_VALUE` (-2^63) and `Long.MAX_VALUE` (2^63 - 1). */
  const MIN_VALUE: Long := Long(0, -0x8000_0000)
  const MAX_VALUE: Long := Long(-1, 0x7FFF_FFFF)

  lemma Extremes()
    ensures Value(MIN_VALUE) == -TWO_63 && Value(MAX_VALUE) == TWO_63 - 1
  {
  }

  /** `isNegative` looks at the high half only. */
  predicate IsNegative(x: Long) { x.high < 0 }

  lemma IsNegativeMeans(x: Long)
    ensures IsNegative(x) <==> Value(x) < 0
  {
  }

  /** The 64-bit wrap-around of a result that is at most one turn out of
      range, as every sum and difference of two 64-bit values is. */
  function Wrap(v: int): (r: Int64)
    requires -TWO_64 - TWO_63 <= v < TWO_64 + TWO_63
    ensures (r - v) % TWO_64 == 0
  {
    if v < -TWO_63 then v + TWO_64 else if v >= TWO_63 then v - TWO_64 else v
  }

  /** `x >>> 16` and `x & 0xFFFF`: the upper and lower 16-bit chunks of a
      32-bit pattern. */
  function Chunks(x: Int32): (r: (int, int))
    ensures 0 <= r.0 < TWO_16 && 0 <= r.1 < TWO_16
    ensures r.0 * TWO_16 + r.1 == U(x)
  {
    (U(x) / TWO_16, x % TWO_16)
  }

  /** One step of the carry chain: `s >>> 16` carries into the next chunk
      and `s & 0xFFFF` stays. */
  function CarrySplit(s: nat): (r: (nat, nat))
    ensures r.1 < TWO_16 && s == r.0 * TWO_16 + r.1
  {
    (s / TWO_16, s % TWO_16)
  }

  /** `add`: each operand is cut into four 16-bit chunks, the chunks are
      summed with explicit carries, and each half is reassembled as
      `(hi16 << 16) | lo16`. Both chunks are below 2^16, so the OR is their
      sum. The carry out of the top chunk is dropped by its `& 0xFFFF`. */
  function Add(a: Long, b: Long): (r: Long)
    ensures Value(r) == Wrap(Value(a) + Value(b))
  {
    var (a48, a32) := Chunks(a.high);
    var (a16, a00) := Chunks(a.low);
    var (b48, b32) := Chunks(b.high);
    var (b16, b00) := Chunks(b.low);
    var (k16, c00) := CarrySplit(a00 + b00);
    var (k32, c16) := CarrySplit(k16 + a16 + b16);
    var (k48, c32) := CarrySplit(k32 + a32 + b32);
    var (k64, c48) := CarrySplit(k48 + a48 + b48);
    var r := Long(S(c16 * TWO_16 + c00), S(c48 * TWO_16 + c32));
    AddChunks(a, b, r, k64, c48 * TWO_16 + c32, c16 * TWO_16 + c00);
    r
  }

  /** The carry chain of `add` computes the sum modulo 2^64. */
  lemma AddChunks(a: Long, b: Long, r: Long, k64: int, hi: Uint32, lo: Uint32)
    requires U(a.high) * TWO_32 + U(a.low) + U(b.high) * TWO_32 + U(b.low)
      == k64 * TWO_64 + hi * TWO_32 + lo
    requires r == Long(S(lo), S(hi))
    ensures Value(r) == Wrap(Value(a) + Value(b))
  {
    var ka := UnsignedValue(a);
    var kb := UnsignedValue(b);
    var kr := UnsignedValue(r);
    var sum := hi * TWO_32 + lo;
    assert Value(a) + Value(b) == sum + (k64 - ka - kb) * TWO_64;
    assert U(S(lo)) == lo && U(S(hi)) == hi;
    assert Value(r) == sum - kr * TWO_64;
    WrapUnique(Value(a) + Value(b), Value(r), ka + kb - kr - k64);
  }

  /** The one 64-bit value congruent to `v` is its wrap. */
  lemma WrapUnique(v: int, x: Int64, m: int)
    requires -TWO_64 - TWO_63 <= v < TWO_64 + TWO_63
    requires x == v + m * TWO_64
    ensures Wrap(v) == x
  {
  }

  /** The value read through the unsigned halves, less 2^64 when the sign
      bit is set. */
  lemma UnsignedValue(x: Long) returns (k: int)
    ensures k == if x.high < 0 then 1 else 0
    ensures Value(x) == U(x.high) * TWO_32 + U(x.low) - k * TWO_64
  {
    k := if x.high < 0 then 1 else 0;
  }

  /** Negating before adding wraps like subtracting. */
  lemma AddNegated(v: Int64, w: Int64, n: Int64, r: Int64)
    requires n == Wrap(-(w as int)) && r == Wrap(v + n)
    ensures r == Wrap(v - w)
  {
  }

  /** Subtracting after a wrapped addition gives the value back. */
  lemma AddThenSubtract(v: Int64, w: Int64)
    ensures Wrap(Wrap(v + w) - w) == v
  {
  }

  /** `~` on a 32-bit value: the two's-complement identity `~v == -v - 1`. */
  function BitNot(v: Int32): Int32 { -(v as int) - 1 }

  /** `not`: the complement of each half. */
  function Not(x: Long): (r: Long)
    ensures Value(r) == -(Value(x) as int) - 1
  {
    Long(BitNot(x.low), BitNot(x.high))
  }

  /** `negate`: MIN_VALUE is its own negation; every other value is
      complemented and incremented. */
  function Negate(x: Long): (r: Long)
    ensures Value(r) == Wrap(-(Value(x) as int))
  {
    if x == MIN_VALUE then MIN_VALUE else Add(Not(x), ONE)
  }

  /** `subtract`: adds the negation. */
  function Subtract(a: Long, b: Long): (r: Long)
    ensures Value(r) == Wrap(Value(a) - Value(b))
  {
    var n := Negate(b);
    var r := Add(a, n);
    AddNegated(Value(a), Value(b), Value(n), Value(r));
    r
  }

  /** The signed reading of a pair is its unsigned pattern, less 2^64 when
      the pattern is at least 2^63. */
  lemma SignedOfUnsigned(x: Long)
    ensures Value(x) == ToInt64(Unsigned(x))
  {
    var u := Unsigned(x);
    assert u % TWO_64 == u;
    if x.high < 0 {
      assert u >= TWO_63 && Value(x) == u - TWO_64;
    } else {
      assert u < TWO_63 && Value(x) == u;
    }
  }

  /** Values 2^64 apart convert to the same 64-bit value. */
  lemma ConvertCongruent(y: int, z: int, k: int)
    requires y == z + k * TWO_64
    ensures ToInt64(y) == ToInt64(z)
  {
    assert y % TWO_64 == z % TWO_64;
  }

  /** `Wrap` agrees with the C conversion to int64. */
  lemma WrapIsConvert(v: int)
    requires -TWO_64 - TWO_63 <= v < TWO_64 + TWO_63
    ensures Wrap(v) == ToInt64(v)
  {
    var w := Wrap(v);
    ConvertFits(w, W64, true);
    ConvertCongruent(v, w, (v - w) / TWO_64);
  }

  /** `isOdd`: the low bit of the low half. */
  predicate IsOdd(x: Long) { x.low % 2 == 1 }

  lemma IsOddMeans(x: Long)
    ensures IsOdd(x) <==> Value(x) % 2 == 1
  {
    assert U(x.low) % 2 == x.low % 2;
    assert (x.high * TWO_32 + U(x.low)) % 2 == U(x.low) % 2;
  }

  /** -2^63 times an odd number is -2^63 modulo 2^64, times an even number
      0. */
  lemma MinTimes(v: int)
    ensures ToInt64(-TWO_63 * v) == if v % 2 == 1 then -TWO_63 else 0
  {
    var k := v / 2;
    assert v == 2 * k + v % 2;
    assert -TWO_63 * v == -TWO_64 * k - TWO_63 * (v % 2);
    if v % 2 == 1 {
      ConvertCongruent(-TWO_63 * v, -TWO_63, -k);
      ConvertFits(-TWO_63, W64, true);
    } else {
      ConvertCongruent(-TWO_63 * v, 0, -k);
      ConvertFits(0, W64, true);
    }
  }

  /** A negative value other than MIN_VALUE negates to a positive one. */
  lemma NegatedPositive(x: Long)
    requires IsNegative(x) && x != MIN_VALUE
    ensures !IsNegative(Negate(x)) && Value(Negate(x)) == -Value(x)
  {
    IsNegativeMeans(x);
    if Value(x) == -TWO_63 {
      ValueInjective(x, MIN_VALUE);
    }
    IsNegativeMeans(Negate(x));
  }

  /** Negating a wrapped product negates the product. */
  lemma NegateProduct(x: Long, v: int)
    requires Value(x) == ToInt64(-v)
    ensures Value(Negate(x)) == ToInt64(v)
  {
    var w: int := Value(x);
    var k := ConvertOffset(-v);
    WrapIsConvert(-w);
    ConvertCongruent(-w, v, k);
  }

  /** A value is its int64 conversion plus some number of turns. */
  lemma ConvertOffset(y: int) returns (k: int)
    ensures y == ToInt64(y) + k * TWO_64
  {
    k := y / TWO_64 + (if y % TWO_64 >= TWO_63 then 1 else 0);
  }


  /** How many of the two operands are negative. */
  function Negatives(a: Long, b: Long): nat
  {
    (if IsNegative(a) then 1 else 0) + (if IsNegative(b) then 1 else 0)
  }

  /** `multiply`: a zero operand gives zero; MIN_VALUE times an odd value
      is MIN_VALUE and times an even value zero; negative operands are
      negated first and the product negated back; two operands below 2^24
      are multiplied as doubles, whose product, below 2^48, is exact; any
      other pair goes through the 16-bit chunk products. */
  function Multiply(a: Long, b: Long): (r: Long)
    ensures Value(r) == ToInt64(Value(a) * Value(b))
    decreases Negatives(a, b)
  {
    if a == ZERO || b == ZERO then
      ZeroProduct(a, b);
      ZERO
    else if a == MIN_VALUE then
      MinProduct(a, b);
      if IsOdd(b) then MIN_VALUE else ZERO
    else if b == MIN_VALUE then
      MinProduct(b, a);
      if IsOdd(a) then MIN_VALUE else ZERO
    else if IsNegative(a) then
      NegatedPositive(a);
      if IsNegative(b) then
        NegatedPositive(b);
        var m := Multiply(Negate(a), Negate(b));
        NegatedBoth(a, b, m);
        m
      else
        var m := Multiply(Negate(a), b);
        NegatedOne(a, b, m);
        Negate(m)
    else if IsNegative(b) then
      NegatedPositive(b);
      var m := Multiply(Negate(b), a);
      NegatedOne(b, a, m);
      Negate(m)
    else if Value(a) < TWO_24 && Value(b) < TWO_24 then
      SmallProduct(a, b);
      FromValue(Value(a) * Value(b))
    else
      var m := MultiplyChunks(a, b);
      ChunkProduct(a, b, m);
      m
  }

  lemma MulBelow(x: nat, y: nat, n: nat)
    requires x < n && y < n
    ensures x * y < n * n
  {
    assert x * y <= x * n;
    assert x * n < n * n;
  }

  /** A zero operand gives zero. */
  lemma ZeroProduct(a: Long, b: Long)
    requires a == ZERO || b == ZERO
    ensures Value(ZERO) == ToInt64(Value(a) * Value(b))
  {
    ConvertFits(0, W64, true);
  }

  /** MIN_VALUE times an odd value is MIN_VALUE, times an even value zero. */
  lemma MinProduct(m: Long, x: Long)
    requires m == MIN_VALUE
    ensures Value(if IsOdd(x) then MIN_VALUE else ZERO) == ToInt64(Value(m) * Value(x))
    ensures Value(m) * Value(x) == Value(x) * Value(m)
  {
    IsOddMeans(x);
    MinTimes(Value(x));
  }

  /** Both operands negated: the product is the same. */
  lemma NegatedBoth(a: Long, b: Long, m: Long)
    requires IsNegative(a) && a != MIN_VALUE && IsNegative(b) && b != MIN_VALUE
    requires Value(m) == ToInt64(Value(Negate(a)) * Value(Negate(b)))
    ensures Value(m) == ToInt64(Value(a) * Value(b))
  {
    NegatedPositive(a);
    NegatedPositive(b);
    NegBoth(Value(a), Value(b));
  }

  lemma NegatedFactor(x: int, y: int, nx: int)
    requires nx == -x
    ensures nx * y == -(x * y) && y * x == x * y
  {
  }

  lemma NegBoth(x: int, y: int)
    ensures (-x) * (-y) == x * y && (-x) * y == -(x * y) && y * x == x * y
  {
  }

  /** One operand negated: the product is negated back. */
  lemma NegatedOne(a: Long, b: Long, m: Long)
    requires IsNegative(a) && a != MIN_VALUE
    requires Value(m) == ToInt64(Value(Negate(a)) * Value(b))
    ensures Value(Negate(m)) == ToInt64(Value(a) * Value(b)) == ToInt64(Value(b) * Value(a))
  {
    NegatedPositive(a);
    var x: int, y: int, na: int := Value(a), Value(b), Value(Negate(a));
    NegatedFactor(x, y, na);
    NegateProduct(m, x * y);
  }

  /** On non-negative operands the chunk product is the wrapped product. */
  lemma ChunkProduct(a: Long, b: Long, m: Long)
    requires !IsNegative(a) && !IsNegative(b)
    requires Unsigned(m) == (Unsigned(a) * Unsigned(b)) % TWO_64
    ensures Value(m) == ToInt64(Value(a) * Value(b))
  {
    SignedOfUnsigned(m);
    assert Unsigned(a) == Value(a) && Unsigned(b) == Value(b);
    var p: int := Value(a) * Value(b);
    ConvertCongruent(p, p % TWO_64, p / TWO_64);
  }

  /** Two operands below 2^24 have a product below 2^48, which a double
      holds exactly. */
  lemma SmallProduct(a: Long, b: Long)
    requires 0 <= Value(a) < TWO_24 && 0 <= Value(b) < TWO_24
    ensures 0 <= Value(a) * Value(b) < TWO_48
    ensures ToInt64(Value(a) * Value(b)) == Value(a) * Value(b)
  {
    var x: nat, y: nat := Value(a), Value(b);
    MulBelow(x, y, TWO_24);
    assert TWO_24 * TWO_24 == TWO_48;
    ConvertFits(x * y, W64, true);
  }

  /** The chunk path of `multiply`: each operand is cut into four 16-bit
      chunks, the products whose position is below 2^64 are summed with
      explicit carries, and the carry out of the top chunk is dropped by its
      `& 0xFFFF`. Every intermediate sum stays below 2^32, so the `>>> 16`
      and `& 0xFFFF` of the source are exact division and remainder. */
  function MultiplyChunks(a: Long, b: Long): (r: Long)
    ensures Unsigned(r) == (Unsigned(a) * Unsigned(b)) % TWO_64
  {
    var (a48, a32) := Chunks(a.high);
    var (a16, a00) := Chunks(a.low);
    var (b48, b32) := Chunks(b.high);
    var (b16, b00) := Chunks(b.low);
    var (k16, c00) := CarrySplit(Mul(a00, b00));
    var (k32a, c16a) := CarrySplit(k16 + Mul(a16, b00));
    var (k32b, c16) := CarrySplit(c16a + Mul(a00, b16));
    var (k48a, c32a) := CarrySplit(k32a + k32b + Mul(a32, b00));
    var (k48b, c32b) := CarrySplit(c32a + Mul(a16, b16));
    var (k48c, c32) := CarrySplit(c32b + Mul(a00, b32));
    var top := k48a + k48b + k48c + Mul(a48, b00) + Mul(a32, b16) + Mul(a16, b32) + Mul(a00, b48);
    var c48 := top % TWO_16;
    var r := Long(S(c16 * TWO_16 + c00), S(c48 * TWO_16 + c32));
    MulChunks(a48, a32, a16, a00, b48, b32, b16, b00, c00, c16, c32, top, c48,
              k16, k32a, c16a, k32b, k48a, c32a, k48b, c32b, k48c);
    PatternBack(c16 * TWO_16 + c00);
    PatternBack(c48 * TWO_16 + c32);
    assert Unsigned(r) == (c48 * TWO_16 + c32) * TWO_32 + c16 * TWO_16 + c00;
    r
  }

  /** A product of two chunks, which the carry chain adds as a plain
      number. */
  function Mul(x: nat, y: nat): nat
  {
    x * y
  }

  /** The carry chain of `multiply` computes the product modulo 2^64. */
  lemma MulChunks(a3: nat, a2: nat, a1: nat, a0: nat, b3: nat, b2: nat, b1: nat, b0: nat,
                  c0: nat, c1: nat, c2: nat, top: nat, c3: nat,
                  k1: nat, k2a: nat, c1a: nat, k2b: nat, k3a: nat, c2a: nat, k3b: nat, c2b: nat, k3c: nat)
    requires c0 < TWO_16 && c1 < TWO_16 && c2 < TWO_16
    requires Mul(a0, b0) == k1 * TWO_16 + c0
    requires k1 + Mul(a1, b0) == k2a * TWO_16 + c1a
    requires c1a + Mul(a0, b1) == k2b * TWO_16 + c1
    requires k2a + k2b + Mul(a2, b0) == k3a * TWO_16 + c2a
    requires c2a + Mul(a1, b1) == k3b * TWO_16 + c2b
    requires c2b + Mul(a0, b2) == k3c * TWO_16 + c2
    requires top == k3a + k3b + k3c + Mul(a3, b0) + Mul(a2, b1) + Mul(a1, b2) + Mul(a0, b3)
    requires c3 == top % TWO_16
    ensures (c3 * TWO_16 + c2) * TWO_32 + c1 * TWO_16 + c0
      == (((a3 * TWO_16 + a2) * TWO_32 + a1 * TWO_16 + a0) * ((b3 * TWO_16 + b2) * TWO_32 + b1 * TWO_16 + b0)) % TWO_64
  {
    ChainSum(c0, c1, c2, top, k1, k2a, c1a, k2b, k3a, c2a, k3b, c2b, k3c,
             a0 * b0, a1 * b0, a0 * b1, a2 * b0, a1 * b1, a0 * b2, a3 * b0, a2 * b1, a1 * b2, a0 * b3);
    ProductExpands(a3, a2, a1, a0, b3, b2, b1, b0);
    var high := a3 * b1 + a2 * b2 + a1 * b3 + TWO_16 * (a3 * b2 + a2 * b3) + TWO_32 * (a3 * b3);
    var q := top / TWO_16;
    var R := c0 + TWO_16 * c1 + TWO_32 * c2 + TWO_48 * c3;
    ModOf(((a3 * TWO_16 + a2) * TWO_32 + a1 * TWO_16 + a0) * ((b3 * TWO_16 + b2) * TWO_32 + b1 * TWO_16 + b0),
          R, q + high);
  }
  const TWO_48: int := 0x1_0000_0000_0000

  /** The carries of the chain, read with products as plain numbers: the
      chunks and the final top sum add back up to the products by position. */
  lemma ChainSum(c0: int, c1: int, c2: int, top: int,
                 k1: int, k2a: int, c1a: int, k2b: int, k3a: int, c2a: int, k3b: int, c2b: int, k3c: int,
                 p00: int, p10: int, p01: int, p20: int, p11: int, p02: int, p30: int, p21: int, p12: int, p03: int)
    requires p00 == k1 * TWO_16 + c0
    requires k1 + p10 == k2a * TWO_16 + c1a
    requires c1a + p01 == k2b * TWO_16 + c1
    requires k2a + k2b + p20 == k3a * TWO_16 + c2a
    requires c2a + p11 == k3b * TWO_16 + c2b
    requires c2b + p02 == k3c * TWO_16 + c2
    requires top == k3a + k3b + k3c + p30 + p21 + p12 + p03
    ensures c0 + TWO_16 * c1 + TWO_32 * c2 + TWO_48 * top
      == p00 + TWO_16 * (p10 + p01) + TWO_32 * (p20 + p11 + p02) + TWO_48 * (p30 + p21 + p12 + p03)
  {
  }
  /** The remainder modulo 2^64 is the one in range. */
  lemma ModOf(x: int, r: int, k: int)
    requires 0 <= r < TWO_64 && x == r + TWO_64 * k
    ensures x % TWO_64 == r
  {
  }
  lemma Dist(x: int, y: int, z: int)
    ensures x * (y + z) == x * y + x * z
  {
  }
  lemma Scale(x: int, y: int, c: int)
    ensures x * (c * y) == c * (x * y)
  {
  }
  /** One operand chunk times a whole four-chunk number. */
  lemma Row(x: int, b3: int, b2: int, b1: int, b0: int)
    ensures x * (TWO_48 * b3 + TWO_32 * b2 + TWO_16 * b1 + b0)
      == TWO_48 * (x * b3) + TWO_32 * (x * b2) + TWO_16 * (x * b1) + x * b0
  {
    Dist(x, TWO_48 * b3 + TWO_32 * b2 + TWO_16 * b1, b0);
    Dist(x, TWO_48 * b3 + TWO_32 * b2, TWO_16 * b1);
    Dist(x, TWO_48 * b3, TWO_32 * b2);
    Scale(x, b3, TWO_48);
    Scale(x, b2, TWO_32);
    Scale(x, b1, TWO_16);
  }
  /** The product of two four-chunk numbers, sorted by position. */
  lemma ProductExpands(a3: int, a2: int, a1: int, a0: int, b3: int, b2: int, b1: int, b0: int)
    ensures ((a3 * TWO_16 + a2) * TWO_32 + a1 * TWO_16 + a0) * ((b3 * TWO_16 + b2) * TWO_32 + b1 * TWO_16 + b0)
      == a0 * b0 + TWO_16 * (a1 * b0 + a0 * b1) + TWO_32 * (a2 * b0 + a1 * b1 + a0 * b2)
         + TWO_48 * (a3 * b0 + a2 * b1 + a1 * b2 + a0 * b3)
         + TWO_64 * (a3 * b1 + a2 * b2 + a1 * b3 + TWO_16 * (a3 * b2 + a2 * b3) + TWO_32 * (a3 * b3))
  {
    var A := TWO_48 * a3 + TWO_32 * a2 + TWO_16 * a1 + a0;
    var B := TWO_48 * b3 + TWO_32 * b2 + TWO_16 * b1 + b0;
    Row(B, a3, a2, a1, a0);
    assert B * A == A * B;
    Row(a3, b3, b2, b1, b0);
    Row(a2, b3, b2, b1, b0);
    Row(a1, b3, b2, b1, b0);
    Row(a0, b3, b2, b1, b0);
    assert B * a3 == a3 * B && B * a2 == a2 * B && B * a1 == a1 * B && B * a0 == a0 * B;
  }
  /** Multiplication is commutative. */
  lemma MultiplyCommutes(a: Long, b: Long)
    ensures Multiply(a, b) == Multiply(b, a)
  {
    var x: int, y: int := Value(a), Value(b);
    assert x * y == y * x;
    ValueInjective(Multiply(a, b), Multiply(b, a));
  }

  /** ONE is the identity of multiplication. */
  lemma MultiplyOne(a: Long)
    ensures Multiply(a, ONE) == a
  {
    var r := Multiply(a, ONE);
    var x: int := Value(a);
    assert Value(ONE) == 1 && x * 1 == x;
    assert Value(r) == ToInt64(x);
    ConvertFits(x, W64, true);
    ValueInjective(r, a);
  }

  /** Multiplying by NEG_ONE is negating, MIN_VALUE included. */
  lemma MultiplyNegOne(a: Long)
    ensures Multiply(a, NEG_ONE) == Negate(a)
  {
    assert Value(NEG_ONE) == -1;
    WrapIsConvert(-(Value(a) as int));
    ValueInjective(Multiply(a, NEG_ONE), Negate(a));
  }

  /** Negation wraps at the bottom of the range: MIN_VALUE and zero are the
      only values that are their own negation. */
  lemma NegateSelf(x: Long)
    ensures Negate(x) == x <==> x == ZERO || x == MIN_VALUE
  {
    if Negate(x) == x {
      if Value(x) == 0 {
        ValueInjective(x, ZERO);
      } else {
        assert Value(x) == -TWO_63;
        ValueInjective(x, MIN_VALUE);
      }
    }
  }

  /** Negation is an involution. */
  lemma NegateNegate(x: Long)
    ensures Negate(Negate(x)) == x
  {
    ValueInjective(Negate(Negate(x)), x);
  }

  /** Subtracting what was added gives back the original. */
  lemma AddSubtract(a: Long, b: Long)
    ensures Subtract(Add(a, b), b) == a
  {
    AddThenSubtract(Value(a), Value(b));
    ValueInjective(Subtract(Add(a, b), b), a);
  }

  /** Addition is commutative. */
  lemma AddCommutes(a: Long, b: Long)
    ensures Add(a, b) == Add(b, a)
  {
    var x, y := Add(a, b), Add(b, a);
    assert Value(x) == Value(y);
    ValueInjective(x, y);
  }

  /** ZERO is the identity of addition. */
  lemma AddZero(a: Long)
    ensures Add(a, ZERO) == a
  {
    var x := Add(a, ZERO);
    assert Value(x) == Value(a);
    ValueInjective(x, a);
  }

  /** The 64-bit pattern of a pair, read as unsigned. */
  function Unsigned(x: Long): nat
  {
    U(x.high) * TWO_32 + U(x.low)
  }

  /** `not` complements the pattern. */
  lemma NotComplements(x: Long)
    ensures Unsigned(Not(x)) == TWO_64 - 1 - Unsigned(x)
  {
  }

  /** `&`, `|` and `^` on two 32-bit patterns, read back as signed. */
  function Bitwise32(op: BitOp, x: Uint32, y: Uint32): Int32
  {
    Pow2Values();
    BitwiseBound(op, x, y, 32);
    S(Bitwise(op, x, y, 32))
  }

  /** `and`, `or` and `xor` work half by half. */
  function And(a: Long, b: Long): (r: Long)
    ensures Unsigned(r) == Bitwise(AndOp, Unsigned(a), Unsigned(b), 64)
  {
    var r := Long(Bitwise32(AndOp, U(a.low), U(b.low)), Bitwise32(AndOp, U(a.high), U(b.high)));
    BitwiseHalves(AndOp, a, b);
    r
  }

  function Or(a: Long, b: Long): (r: Long)
    ensures Unsigned(r) == Bitwise(OrOp, Unsigned(a), Unsigned(b), 64)
  {
    var r := Long(Bitwise32(OrOp, U(a.low), U(b.low)), Bitwise32(OrOp, U(a.high), U(b.high)));
    BitwiseHalves(OrOp, a, b);
    r
  }

  function Xor(a: Long, b: Long): (r: Long)
    ensures Unsigned(r) == Bitwise(XorOp, Unsigned(a), Unsigned(b), 64)
  {
    var r := Long(Bitwise32(XorOp, U(a.low), U(b.low)), Bitwise32(XorOp, U(a.high), U(b.high)));
    BitwiseHalves(XorOp, a, b);
    r
  }

  /** Working half by half is working on the whole 64-bit pattern. */
  lemma BitwiseHalves(op: BitOp, a: Long, b: Long)
    ensures Unsigned(Long(Bitwise32(op, U(a.low), U(b.low)), Bitwise32(op, U(a.high), U(b.high))))
      == Bitwise(op, Unsigned(a), Unsigned(b), 64)
  {
    var A, B := Unsigned(a), Unsigned(b);
    var lo, hi := Bitwise(op, U(a.low), U(b.low), 32), Bitwise(op, U(a.high), U(b.high), 32);
    Pow2Values();
    BitwiseBound(op, U(a.low), U(b.low), 32);
    BitwiseBound(op, U(a.high), U(b.high), 32);
    PatternBack(lo);
    PatternBack(hi);
    BitwiseSplit(op, A, B, 32, 32);
    BitwiseLow(op, A, B, U(a.high), U(a.low), U(b.high), U(b.low), 32);
    ShrHigh(A, U(a.high), U(a.low), 32);
    ShrHigh(B, U(b.high), U(b.low), 32);
    ShrSmall(U(a.low), 32);
    ShrSmall(U(b.low), 32);
    assert Bitwise(op, A, B, 64) == lo + TWO_32 * hi;
  }

  /** A 32-bit pattern survives `| 0` and `>>> 0`. */
  lemma PatternBack(u: Uint32)
    ensures U(S(u)) == u
  {
  }

  /** `a` shifted right by `m` bits, one bit at a time. */
  function Shr(a: nat, m: nat): nat
  {
    if m == 0 then a else Shr(a / 2, m - 1)
  }

  /** The low `m + n` bits are the low `m` bits and, above them, the next
      `n` bits. */
  lemma {:induction false} BitwiseSplit(op: BitOp, a: nat, b: nat, m: nat, n: nat)
    ensures Bitwise(op, a, b, m + n)
      == Bitwise(op, a, b, m) + Pow2(m) * Bitwise(op, Shr(a, m), Shr(b, m), n)
  {
    if m > 0 {
      var x := Bitwise(op, Shr(a, m), Shr(b, m), n);
      BitwiseSplit(op, a / 2, b / 2, m - 1, n);
      Scale2(Pow2(m - 1), x, Pow2(m));
    }
  }

  lemma Scale2(p: nat, x: nat, q: nat)
    requires q == 2 * p
    ensures 2 * (p * x) == q * x
  {
  }

  /** Halving `h * 2^m + l` halves `l` and keeps its low bit. */
  lemma HalfStep(h: nat, l: nat, m: nat)
    requires m > 0
    ensures (h * Pow2(m) + l) / 2 == h * Pow2(m - 1) + l / 2
    ensures (h * Pow2(m) + l) % 2 == l % 2
  {
    var p := h * Pow2(m - 1);
    assert h * Pow2(m) == 2 * p;
  }

  /** Bits at position `m` and above do not affect the low `m` bits. */
  lemma {:induction false} BitwiseLow(op: BitOp, a: nat, a2: nat, h: nat, l: nat, h2: nat, l2: nat, m: nat)
    requires a == h * Pow2(m) + l && a2 == h2 * Pow2(m) + l2
    ensures Bitwise(op, a, a2, m) == Bitwise(op, l, l2, m)
  {
    if m > 0 {
      HalfStep(h, l, m);
      HalfStep(h2, l2, m);
      BitwiseLow(op, a / 2, a2 / 2, h, l / 2, h2, l2 / 2, m - 1);
    }
  }

  /** Shifting `h * 2^m + l` right by `m` leaves `h` and what is left of
      `l`. */
  lemma {:induction false} ShrHigh(a: nat, h: nat, l: nat, m: nat)
    requires a == h * Pow2(m) + l
    ensures Shr(a, m) == h + Shr(l, m)
  {
    if m > 0 {
      HalfStep(h, l, m);
      ShrHigh(a / 2, h, l / 2, m - 1);
    }
  }

  lemma {:induction false} ShrSmall(l: nat, m: nat)
    requires l < Pow2(m)
    ensures Shr(l, m) == 0
  {
    if m > 0 {
      ShrSmall(l / 2, m - 1);
    }
  }

  /** XOR with the same pattern twice gives the original bits back. */
  lemma {:induction false} BitwiseXorTwice(a: nat, b: nat, n: nat)
    requires a < Pow2(n)
    ensures Bitwise(XorOp, Bitwise(XorOp, a, b, n), b, n) == a
  {
    if n > 0 {
      BitwiseXorTwice(a / 2, b / 2, n - 1);
      var x := Bitwise(XorOp, a, b, n);
      assert x / 2 == Bitwise(XorOp, a / 2, b / 2, n - 1);
    }
  }

  /** An idempotent operator (`&`, `|`) applied to a pattern and itself
      gives the pattern. */
  lemma {:induction false} BitwiseSame(op: BitOp, a: nat, n: nat)
    requires op.AndOp? || op.OrOp?
    requires a < Pow2(n)
    ensures Bitwise(op, a, a, n) == a
  {
    if n > 0 {
      BitwiseSame(op, a / 2, n - 1);
    }
  }

  lemma PatternRoundTrip(x: Int32)
    ensures S(U(x)) == x
  {
  }

  /** `a.xor(b).xor(b)` is `a`. */
  lemma XorXor(a: Long, b: Long)
    ensures Xor(Xor(a, b), b) == a
  {
    var x := Xor(a, b);
    XorHalfTwice(a.low, b.low);
    XorHalfTwice(a.high, b.high);
    assert x.low == Bitwise32(XorOp, U(a.low), U(b.low));
    assert x.high == Bitwise32(XorOp, U(a.high), U(b.high));
  }

  /** Half by half: `(x ^ y) ^ y` is `x`. */
  lemma XorHalfTwice(x: Int32, y: Int32)
    ensures Bitwise32(XorOp, U(Bitwise32(XorOp, U(x), U(y))), U(y)) == x
  {
    Pow2Values();
    BitwiseBound(XorOp, U(x), U(y), 32);
    BitwiseXorTwice(U(x), U(y), 32);
    var b := Bitwise(XorOp, U(x), U(y), 32);
    assert U(S(b)) == b;
  }

  /** `a.and(a)` and `a.or(a)` are `a`. */
  lemma AndOrSelf(a: Long)
    ensures And(a, a) == a && Or(a, a) == a
  {
    Pow2Values();
    BitwiseSame(AndOp, U(a.low), 32);
    BitwiseSame(AndOp, U(a.high), 32);
    BitwiseSame(OrOp, U(a.low), 32);
    BitwiseSame(OrOp, U(a.high), 32);
  }
}
