/** The shifts of the JavaScript `Long` (src/js/naclbind.js): each works on
    the two 32-bit halves with JavaScript's 32-bit `<<`, `>>`, `>>>` and `|`,
    and each is proved to be the 64-bit shift of the whole value. */
module LongShifts {
  import opened Ints
  import opened JsLong

  /** `numBits &= 63`: only the low six bits of the count are used. */
  function ShiftCount(numBits: Int32): (n: nat)
    ensures n < 64
  {
    numBits % 64
  }

  /** JavaScript `x << k` on an int32, for a count already below 32. */
  function Shl32(x: Int32, k: nat): Int32
    requires k < 32
  {
    S((U(x) * Pow2(k)) % TWO_32)
  }

  /** JavaScript `x >>> k`: a non-negative number below 2^32. */
  function Shru32(x: Int32, k: nat): Uint32
    requires k < 32
  {
    var u, p := U(x), Pow2(k);
    DivBelow(u, p, TWO_32);
    u / p
  }

  /** JavaScript `x >> k`: the arithmetic shift rounds toward minus infinity. */
  function Sar32(x: Int32, k: nat): Int32
    requires k < 32
  {
    SarRange(x, Pow2(k));
    x / Pow2(k)
  }

  /** JavaScript `x | y`, whose operands are read as 32-bit patterns. */
  function Or32Js(x: Uint32, y: Uint32): Int32
  {
    Bitwise32(OrOp, x, y)
  }

  /** `shiftLeft`: the 64-bit pattern times 2^n, reduced modulo 2^64. */
  function ShiftLeft(x: Long, numBits: Int32): (r: Long)
    ensures Unsigned(r) == (Unsigned(x) * Pow2(ShiftCount(numBits))) % TWO_64
  {
    var n := ShiftCount(numBits);
    if n == 0 then
      ShiftByZero(x);
      x
    else if n < 32 then
      var r := Long(Shl32(x.low, n), Or32Js(U(Shl32(x.high, n)), Shru32(x.low, 32 - n)));
      ShiftLeftSmall(x, n, r);
      r
    else
      var r := Long(0, Shl32(x.low, n - 32));
      ShiftLeftLarge(x, n, r);
      r
  }

  /** `shiftRight`: the signed value divided by 2^n, rounded toward minus
      infinity. */
  function ShiftRight(x: Long, numBits: Int32): (r: Long)
    ensures Value(r) == Value(x) / Pow2(ShiftCount(numBits))
  {
    var n := ShiftCount(numBits);
    if n == 0 then
      ShiftByZero(x);
      x
    else if n < 32 then
      var r := Long(Or32Js(Shru32(x.low, n), U(Shl32(x.high, 32 - n))), Sar32(x.high, n));
      ShiftRightSmall(x, n, r);
      r
    else
      var r := Long(Sar32(x.high, n - 32), if x.high >= 0 then 0 else -1);
      ShiftRightLarge(x, n, r);
      r
  }

  /** `shiftRightUnsigned`: the unsigned reading divided by 2^n. */
  function ShiftRightUnsigned(x: Long, numBits: Int32): (r: Long)
    ensures Unsigned(r) == Unsigned(x) / Pow2(ShiftCount(numBits))
  {
    var n := ShiftCount(numBits);
    if n == 0 then
      ShiftByZero(x);
      x
    else if n < 32 then
      var r := Long(Or32Js(Shru32(x.low, n), U(Shl32(x.high, 32 - n))), S(Shru32(x.high, n)));
      ShiftRightUnsignedSmall(x, n, r);
      r
    else if n == 32 then
      ShiftRightUnsignedLarge(x, n, Long(x.high, 0));
      Long(x.high, 0)
    else
      var r := Long(S(Shru32(x.high, n - 32)), 0);
      ShiftRightUnsignedLarge(x, n, r);
      r
  }

  /** The unsigned reading determines the pair. */
  lemma UnsignedInjective(x: Long, y: Long)
    requires Unsigned(x) == Unsigned(y)
    ensures x == y
  {
    DivMod(Unsigned(x), TWO_32, U(x.high), U(x.low));
    DivMod(Unsigned(y), TWO_32, U(y.high), U(y.low));
    PatternRoundTrip(x.low);
    PatternRoundTrip(y.low);
    PatternRoundTrip(x.high);
    PatternRoundTrip(y.high);
  }

  /** A count of 64 (or any multiple of it) leaves the value alone. */
  lemma ShiftByWidth(x: Long, numBits: Int32)
    requires numBits % 64 == 0
    ensures ShiftLeft(x, numBits) == x && ShiftRight(x, numBits) == x
    ensures ShiftRightUnsigned(x, numBits) == x
  {
    ShiftByZero(x);
    UnsignedInjective(ShiftLeft(x, numBits), x);
    UnsignedInjective(ShiftRightUnsigned(x, numBits), x);
    ValueInjective(ShiftRight(x, numBits), x);
  }

  /** Shifting left and back with `shiftRightUnsigned` restores a value
      none of whose bits were shifted out. */
  lemma ShiftLeftThenRight(x: Long, numBits: Int32)
    requires Unsigned(x) < Pow2(64 - ShiftCount(numBits))
    ensures ShiftRightUnsigned(ShiftLeft(x, numBits), numBits) == x
  {
    var n := ShiftCount(numBits);
    var p, v := Pow2(n), Unsigned(x);
    Pow2Add(64 - n, n);
    Pow2Values();
    DigitsBelow(v, 0, Pow2(64 - n), p);
    DivMod(v * p, TWO_64, 0, v * p);
    DivMod(v * p, p, v, 0);
    UnsignedInjective(ShiftRightUnsigned(ShiftLeft(x, numBits), numBits), x);
  }

  /** On non-negative values the two right shifts agree. */
  lemma ShiftRightNonNegative(x: Long, numBits: Int32)
    requires !IsNegative(x)
    ensures ShiftRight(x, numBits) == ShiftRightUnsigned(x, numBits)
  {
    var r, u := ShiftRight(x, numBits), ShiftRightUnsigned(x, numBits);
    var p := Pow2(ShiftCount(numBits));
    var k := UnsignedValue(x);
    DivBelow(Unsigned(x), p, TWO_64);
    IsNegativeMeans(r);
    var kr := UnsignedValue(r);
    UnsignedInjective(r, u);
  }

  lemma ShiftByZero(x: Long)
    ensures (Unsigned(x) * Pow2(0)) % TWO_64 == Unsigned(x)
    ensures Unsigned(x) / Pow2(0) == Unsigned(x) && Value(x) / Pow2(0) == Value(x)
  {
  }

  /** `p = 2^n` and `q = 2^(32-n)` split a 32-bit word. */
  lemma WordSplit(n: nat)
    requires n <= 32
    ensures Pow2(n) * Pow2(32 - n) == TWO_32 && Pow2(32 - n) * Pow2(n) == TWO_32
  {
    Pow2Add(n, 32 - n);
    Pow2Values();
  }

  /** The bit pattern of a negative word differs from it by 2^32. */
  lemma PatternResidue(w: Int32, p: nat, q: nat)
    requires p > 0 && p * q == TWO_32
    ensures U(w) % p == w % p
  {
    if w < 0 {
      ModShift(w, p, q);
    }
  }

  /** `w << k` keeps the low `32 - k` bits of the pattern, moved up. */
  lemma Shl32Value(w: Int32, k: nat)
    requires k < 32
    ensures U(Shl32(w, k)) == (U(w) % Pow2(32 - k)) * Pow2(k)
  {
    WordSplit(k);
    MulMod(U(w), Pow2(32 - k), Pow2(k));
  }

  /** `|` of two patterns with disjoint bits is their sum, whichever
      operand comes first. */
  lemma OrJsDisjoint(a: nat, h: nat, l: nat, k: nat)
    requires k <= 32 && a == h * Pow2(k) && h < Pow2(32 - k) && l < Pow2(k)
    ensures a + l < TWO_32
    ensures U(Or32Js(a, l)) == a + l && U(Or32Js(l, a)) == a + l
  {
    var p, q := Pow2(k), Pow2(32 - k);
    WordSplit(k);
    DigitsBelow(h, l, q, p);
    OrBits(a, h, l, k);
    OrPattern(a, l);
  }

  lemma OrPattern(a: nat, l: nat)
    requires a + l < TWO_32
    requires Bitwise(OrOp, a, l, 32) == a + l && Bitwise(OrOp, l, a, 32) == a + l
    ensures U(Or32Js(a, l)) == a + l && U(Or32Js(l, a)) == a + l
  {
  }

  lemma OrBits(a: nat, h: nat, l: nat, k: nat)
    requires a == h * Pow2(k) && l < Pow2(k) && a + l < TWO_32
    ensures Bitwise(OrOp, a, l, 32) == a + l && Bitwise(OrOp, l, a, 32) == a + l
  {
    Pow2Values();
    DisjointOr(a, h, l, k, 32);
    OrCommutes(l, a, 32);
  }

  lemma ShiftLeftSmall(x: Long, n: nat, r: Long)
    requires 0 < n < 32
    requires r == Long(Shl32(x.low, n), Or32Js(U(Shl32(x.high, n)), Shru32(x.low, 32 - n)))
    ensures Unsigned(r) == (Unsigned(x) * Pow2(n)) % TWO_64
  {
    var p, q := Pow2(n), Pow2(32 - n);
    var hw, lw := U(x.high), U(x.low);
    WordSplit(n);
    ShiftLeftHalves(x, n, r);
    ShlWords(hw, lw, p, q);
  }

  lemma ShiftLeftHalves(x: Long, n: nat, r: Long)
    requires 0 < n < 32
    requires r == Long(Shl32(x.low, n), Or32Js(U(Shl32(x.high, n)), Shru32(x.low, 32 - n)))
    ensures U(r.low) == (U(x.low) % Pow2(32 - n)) * Pow2(n)
    ensures U(r.high) == (U(x.high) % Pow2(32 - n)) * Pow2(n) + U(x.low) / Pow2(32 - n)
  {
    var p, q := Pow2(n), Pow2(32 - n);
    var hw, lw := U(x.high), U(x.low);
    WordSplit(n);
    Shl32Value(x.low, n);
    Shl32Value(x.high, n);
    DivLess(lw, q, p);
    OrJsDisjoint((hw % q) * p, hw % q, lw / q, n);
  }

  lemma ShiftLeftLarge(x: Long, n: nat, r: Long)
    requires 32 <= n < 64
    requires r == Long(0, Shl32(x.low, n - 32))
    ensures Unsigned(r) == (Unsigned(x) * Pow2(n)) % TWO_64
  {
    var p, q := Pow2(n - 32), Pow2(64 - n);
    WordSplit(n - 32);
    Pow2Add(n - 32, 32);
    Pow2Values();
    Shl32Value(x.low, n - 32);
    ShlLargeDigits(Unsigned(x), Unsigned(r), Pow2(n), U(x.high), U(x.low), p, q);
  }

  /** The arithmetic of `ShiftLeftLarge` over plain numbers: `w` is 2^32,
      `pn` is 2^n and the result is the low word's surviving bits moved
      into the high word. */
  lemma ShlLargeDigits(ux: nat, ur: nat, pn: nat, hw: nat, lw: nat, p: nat, q: nat)
    requires p > 0 && q > 0 && p * q == TWO_32 && lw < TWO_32
    requires ux == hw * TWO_32 + lw && pn == p * TWO_32 && ur == ((lw % q) * p) * TWO_32
    ensures ur == (ux * pn) % TWO_64
  {
    ShlHighWord(hw, lw, p, q);
    assert TWO_64 == TWO_32 * TWO_32;
  }

  lemma ShiftRightSmall(x: Long, n: nat, r: Long)
    requires 0 < n < 32
    requires r == Long(Or32Js(Shru32(x.low, n), U(Shl32(x.high, 32 - n))), Sar32(x.high, n))
    ensures Value(r) == Value(x) / Pow2(n)
  {
    var p, q := Pow2(n), Pow2(32 - n);
    WordSplit(n);
    PatternResidue(x.high, p, q);
    ShiftRightLow(x, n, r.low);
    ShrWords(x.high, U(x.low), p, q);
  }

  /** The low half both right shifts build: the bits of the low word
      shifted down, with the low `n` bits of the high word above them. */
  lemma ShiftRightLow(x: Long, n: nat, low: Int32)
    requires 0 < n < 32
    requires low == Or32Js(Shru32(x.low, n), U(Shl32(x.high, 32 - n)))
    ensures U(low) == (U(x.high) % Pow2(n)) * Pow2(32 - n) + U(x.low) / Pow2(n)
  {
    var p, q := Pow2(n), Pow2(32 - n);
    var hw, lw := U(x.high), U(x.low);
    WordSplit(n);
    Shl32Value(x.high, 32 - n);
    DivLess(lw, p, q);
    OrJsDisjoint((hw % p) * q, hw % p, lw / p, 32 - n);
  }

  lemma ShiftRightLarge(x: Long, n: nat, r: Long)
    requires 32 <= n < 64
    requires r == Long(Sar32(x.high, n - 32), if x.high >= 0 then 0 else -1)
    ensures Value(r) == Value(x) / Pow2(n)
  {
    var p := Pow2(n - 32);
    Pow2Add(n - 32, 32);
    Pow2Values();
    SarRange(x.high, p);
    ShrHighWord(x.high, U(x.low), p, TWO_32);
  }

  lemma ShiftRightUnsignedSmall(x: Long, n: nat, r: Long)
    requires 0 < n < 32
    requires r == Long(Or32Js(Shru32(x.low, n), U(Shl32(x.high, 32 - n))), S(Shru32(x.high, n)))
    ensures Unsigned(r) == Unsigned(x) / Pow2(n)
  {
    var p, q := Pow2(n), Pow2(32 - n);
    WordSplit(n);
    ShiftRightLow(x, n, r.low);
    ShrWords(U(x.high), U(x.low), p, q);
  }

  lemma ShiftRightUnsignedLarge(x: Long, n: nat, r: Long)
    requires 32 <= n < 64
    requires r == Long(S(Shru32(x.high, n - 32)), 0)
    ensures Unsigned(r) == Unsigned(x) / Pow2(n)
  {
    var p, hu := Pow2(n - 32), U(x.high);
    Pow2Add(n - 32, 32);
    Pow2Values();
    var v := Shru32(x.high, n - 32);
    assert v == hu / p;
    assert Unsigned(r) == v by {
      assert U(S(v)) == v;
    }
    ShrHighWord(hu, U(x.low), p, TWO_32);
  }

  // ---------------------------------------------------------------------
  // Arithmetic on the words

  lemma MulAtLeast(a: int, p: int)
    requires a >= 1 && p > 0
    ensures a * p >= p
  {
  }

  lemma MulNonNegative(a: int, p: int)
    requires a >= 0 && p > 0
    ensures 0 <= a <= a * p
  {
  }

  lemma Distrib(a: int, b: int, p: int)
    ensures a * p - b * p == (a - b) * p
  {
  }

  /** Quotient and remainder are determined by any decomposition. */
  lemma DivMod(x: int, p: int, q: int, r: int)
    requires p > 0 && x == q * p + r && 0 <= r < p
    ensures x / p == q && x % p == r
  {
    var q0, r0 := x / p, x % p;
    assert x == q0 * p + r0;
    Distrib(q, q0, p);
    Distrib(q0, q, p);
    if q > q0 {
      MulAtLeast(q - q0, p);
    } else if q < q0 {
      MulAtLeast(q0 - q, p);
    }
  }

  lemma DivBelow(x: nat, p: nat, bound: nat)
    requires p >= 1 && x < bound
    ensures 0 <= x / p < bound
  {
    var q := x / p;
    assert x == q * p + x % p;
    MulNonNegative(q, p);
  }

  /** Division by a positive number moves toward minus infinity but never
      past the dividend. */
  lemma SarRange(x: Int32, p: nat)
    requires p >= 1
    ensures -TWO_31 <= x / p < TWO_31
    ensures x / p < 0 <==> x < 0
  {
    var q := x / p;
    assert x == q * p + x % p;
    if x >= 0 {
      MulNonNegative(q, p);
    } else {
      MulNonNegative(-q, p);
      Distrib(0, q, p);
    }
  }

  /** Two digits below `p` and `q` make a number below `p * q`. */
  lemma DigitsBelow(a: int, b: int, p: int, q: int)
    requires 0 <= a < p && 0 <= b < q
    ensures 0 <= a * q + b < p * q
  {
    MulNonNegative(a, q);
    Distrib(p, a, q);
    MulAtLeast(p - a, q);
  }

  /** Multiplying by `q` and reducing modulo `p * q` keeps the residue
      modulo `p`, scaled. */
  lemma MulMod(x: int, p: int, q: int)
    requires p > 0 && q > 0
    ensures (x * q) % (p * q) == (x % p) * q
  {
    var a, b := x / p, x % p;
    assert x == a * p + b;
    assert x * q == a * (p * q) + b * q;
    DigitsBelow(b, 0, p, q);
    DivMod(x * q, p * q, a, b * q);
  }

  /** Adding `q * p` does not change the residue modulo `p`. */
  lemma ModShift(w: int, p: int, q: int)
    requires p > 0
    ensures (w + q * p) % p == w % p
  {
    DivMod(w + q * p, p, w / p + q, w % p);
  }

  /** OR of `h * 2^k` and a value below `2^k` has no carries: it is the
      sum. */
  lemma {:induction false} DisjointOr(a: nat, h: nat, l: nat, k: nat, n: nat)
    requires a == h * Pow2(k) && l < Pow2(k) && a + l < Pow2(n)
    ensures Bitwise(OrOp, a, l, n) == a + l
  {
    if n == 0 {
    } else if k == 0 {
      OrZero(a, n);
    } else {
      HalfStep(h, 0, k);
      HalfStep(0, l, k);
      DisjointOr(a / 2, h, l / 2, k - 1, n - 1);
    }
  }

  lemma DivLess(x: int, p: int, q: int)
    requires p > 0 && q > 0 && 0 <= x < p * q
    ensures 0 <= x / p < q
  {
    var d := x / p;
    assert x == d * p + x % p;
    Distrib(q, d, p);
  }

  lemma RingLeft(c: int, g: int, e: int, f: int, p: int, q: int)
    ensures ((c * q + g) * (p * q) + (e * q + f)) * p
      == c * ((p * q) * (p * q)) + ((g * p + e) * (p * q) + f * p)
  {
  }

  /** `shiftLeft` for a count in 1..31, on the unsigned readings `hw` and
      `lw` of the two halves: the new halves are `(hw % q) * p + lw / q`
      and `(lw % q) * p`, with `p = 2^n` and `p * q = 2^32`. */
  lemma ShlWords(hw: nat, lw: nat, p: nat, q: nat)
    requires p > 0 && q > 0 && hw < p * q && lw < p * q
    ensures ((hw * (p * q) + lw) * p) % ((p * q) * (p * q))
      == ((hw % q) * p + lw / q) * (p * q) + (lw % q) * p
  {
    var c, g, e, f := hw / q, hw % q, lw / q, lw % q;
    var pq := p * q;
    var x, r := (hw * pq + lw) * p, (g * p + e) * pq + f * p;
    ShlIdentity(hw, lw, c, g, e, f, p, q);
    DivLess(lw, q, p);
    ShlBound(g, e, f, p, q);
    DivMod(x, pq * pq, c, r);
  }

  lemma ShlIdentity(hw: int, lw: int, c: int, g: int, e: int, f: int, p: int, q: int)
    requires hw == c * q + g && lw == e * q + f
    ensures (hw * (p * q) + lw) * p == c * ((p * q) * (p * q)) + ((g * p + e) * (p * q) + f * p)
  {
    RingLeft(c, g, e, f, p, q);
  }

  lemma ShlBound(g: int, e: int, f: int, p: int, q: int)
    requires 0 <= g < q && 0 <= e < p && 0 <= f < q
    ensures 0 <= (g * p + e) * (p * q) + f * p < (p * q) * (p * q)
  {
    DigitsBelow(g, e, q, p);
    DigitsBelow(f, 0, q, p);
    DigitsBelow(g * p + e, f * p, p * q, p * q);
  }

  /** `shiftRight` and `shiftRightUnsigned` for a count in 1..31: the new
      halves are `hw / p` and `(hw % p) * q + lw / p`. */
  lemma ShrWords(hw: int, lw: nat, p: nat, q: nat)
    requires p > 0 && q > 0 && lw < p * q
    ensures (hw * (p * q) + lw) / p == (hw / p) * (p * q) + ((hw % p) * q + lw / p)
    ensures 0 <= (hw % p) * q + lw / p < p * q
  {
    var d, m, e, f := hw / p, hw % p, lw / p, lw % p;
    ShrIdentity(hw, lw, d, m, e, f, p, q);
    DivLess(lw, p, q);
    DigitsBelow(m, e, p, q);
    DivMod(hw * (p * q) + lw, p, d * (p * q) + (m * q + e), f);
  }

  lemma ShrIdentity(hw: int, lw: int, d: int, m: int, e: int, f: int, p: int, q: int)
    requires hw == d * p + m && lw == e * p + f
    ensures hw * (p * q) + lw == (d * (p * q) + (m * q + e)) * p + f
  {
  }

  /** Shifting right by `32 + k` keeps only the high half, shifted by `k`. */
  lemma ShrHighWord(hw: int, lw: nat, p: nat, pq: nat)
    requires p > 0 && pq > 0 && lw < pq
    ensures (hw * pq + lw) / (p * pq) == hw / p
  {
    var d, m := hw / p, hw % p;
    assert hw * pq + lw == d * (p * pq) + (m * pq + lw) by {
      assert hw == d * p + m;
    }
    DigitsBelow(m, lw, p, pq);
    DivMod(hw * pq + lw, p * pq, d, m * pq + lw);
  }

  /** Shifting left by `32 + k` keeps only the low half, shifted by `k`. */
  lemma ShlHighWord(hw: nat, lw: nat, p: nat, q: nat)
    requires p > 0 && q > 0 && lw < p * q
    ensures ((hw * (p * q) + lw) * (p * (p * q))) % ((p * q) * (p * q)) == ((lw % q) * p) * (p * q)
  {
    var e, f := lw / q, lw % q;
    var pq := p * q;
    assert (hw * pq + lw) * (p * pq) == (hw * p + e) * (pq * pq) + (f * p) * pq by {
      assert lw == e * q + f;
    }
    DigitsBelow(f, 0, q, p);
    DigitsBelow(f * p, 0, pq, pq);
    DivMod((hw * pq + lw) * (p * pq), pq * pq, hw * p + e, (f * p) * pq);
  }

  lemma {:induction false} OrCommutes(a: nat, b: nat, n: nat)
    ensures Bitwise(OrOp, a, b, n) == Bitwise(OrOp, b, a, n)
  {
    if n > 0 {
      OrCommutes(a / 2, b / 2, n - 1);
    }
  }
}
