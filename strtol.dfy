/** Decimal conversion of strings to C `long` as `strtol(buf, &end, 10)`
    performs it on the 32-bit NaCl target, the `%d` formatting that
    produces such strings, and `nb_string_to_long` (src/c/request.c). */
module StrToLong {
  import opened Ints
  import opened Wrappers

  /** `LONG_MIN` and `LONG_MAX`: `long` has 32 bits under NaCl. */
  const LONG_MIN: int := -TWO_31
  const LONG_MAX: int := TWO_31 - 1

  /** `isspace` in the C locale. */
  predicate IsSpace(c: char)
  {
    c == ' ' || c == '\t' || c == '\n' || c == '\r' || c as int == 0x0b || c as int == 0x0c
  }

  predicate IsDigit(c: char)
  {
    '0' <= c <= '9'
  }

  predicate AllDigits(s: string)
  {
    forall i :: 0 <= i < |s| ==> IsDigit(s[i])
  }

  function LeadingSpaces(s: string): (n: nat)
    ensures n <= |s|
    ensures forall i :: 0 <= i < n ==> IsSpace(s[i])
    ensures n < |s| ==> !IsSpace(s[n])
  {
    if |s| > 0 && IsSpace(s[0]) then 1 + LeadingSpaces(s[1..]) else 0
  }

  /** The length of the longest run of digits at the front of `s`. */
  function DigitRun(s: string): (n: nat)
    ensures n <= |s| && AllDigits(s[..n])
    ensures n < |s| ==> !IsDigit(s[n])
  {
    if |s| > 0 && IsDigit(s[0]) then
      var n := 1 + DigitRun(s[1..]);
      assert s[..n] == [s[0]] + s[1..][..n - 1];
      n
    else 0
  }

  function DigitValue(c: char): nat
    requires IsDigit(c)
  {
    c as int - '0' as int
  }

  function DecimalValue(ds: string): nat
    requires AllDigits(ds)
  {
    if |ds| == 0 then 0
    else 10 * DecimalValue(ds[..|ds| - 1]) + DigitValue(ds[|ds| - 1])
  }

  /** What `strtol` returns, where it leaves `*endptr` (as an offset into
      the buffer) and whether it sets `errno` to `ERANGE`. */
  datatype Conversion = Conversion(value: int, end: nat, erange: bool)

  /** `strtol(s, &end, 10)`: leading white space, an optional sign and the
      longest run of digits; with no digits nothing is consumed, and a value
      outside `long` saturates and reports `ERANGE`. A NUL is neither space,
      sign nor digit, so the conversion stops at the end of the C string. */
  function Strtol(s: string): (r: Conversion)
    ensures r.end <= |s|
    ensures LONG_MIN <= r.value <= LONG_MAX
    ensures r.end == 0 ==> r.value == 0 && !r.erange
  {
    var i := LeadingSpaces(s);
    var signLen := if i < |s| && (s[i] == '+' || s[i] == '-') then 1 else 0;
    var negative := signLen == 1 && s[i] == '-';
    var n := DigitRun(s[i + signLen..]);
    if n == 0 then Conversion(0, 0, false)
    else
      var magnitude: int := DecimalValue(s[i + signLen..][..n]);
      var v := if negative then -magnitude else magnitude;
      var end := i + signLen + n;
      if v > LONG_MAX then Conversion(LONG_MAX, end, true)
      else if v < LONG_MIN then Conversion(LONG_MIN, end, true)
      else Conversion(v, end, false)
  }

  function DigitChar(d: nat): (c: char)
    requires d < 10
    ensures IsDigit(c) && DigitValue(c) == d
  {
    ('0' as int + d) as char
  }

  /** The decimal digits of `n`, without leading zeros. */
  function Digits(n: nat): (s: string)
    ensures |s| > 0 && AllDigits(s) && DecimalValue(s) == n
  {
    if n < 10 then [DigitChar(n)]
    else
      var s := Digits(n / 10) + [DigitChar(n % 10)];
      assert s[..|s| - 1] == Digits(n / 10);
      s
  }

  /** `%d`: the form in which JavaScript spells a handle id as an object
      key. */
  function Decimal(n: int): (s: string)
    ensures |s| > 0
  {
    if n < 0 then "-" + Digits(-n) else Digits(n)
  }

  /** `kBufferSize`: the longest prefix `nb_string_to_long` copies. */
  const BUFFER_SIZE: nat := 32

  /** `nb_string_to_long` as written: the string is cut to 32 characters
      before conversion, and the conversion succeeds when `errno` stays 0
      and `end` reaches the end of the cut string. */
  function StringToLongAsWritten(s: string): Option<Int32>
  {
    var len := if |s| < BUFFER_SIZE then |s| else BUFFER_SIZE;
    var c := Strtol(s[..len]);
    if !c.erange && c.end == len then Some(c.value) else None
  }

  /** `nb_string_to_long` as evidently intended: the whole string must be
      one in-range decimal number. */
  function StringToLong(s: string): (r: Option<Int32>)
    ensures r.Some? ==> 0 < |s| && Strtol(s).end == |s| && r.value == Strtol(s).value
  {
    var c := Strtol(s);
    if |s| > 0 && !c.erange && c.end == |s| then Some(c.value) else None
  }

  lemma {:induction false} DigitRunAll(s: string)
    requires AllDigits(s)
    ensures DigitRun(s) == |s|
  {
    if |s| > 0 {
      DigitRunAll(s[1..]);
    }
  }

  function Pow10(k: nat): nat
  {
    if k == 0 then 1 else 10 * Pow10(k - 1)
  }

  lemma {:induction false} DigitsBelow(n: nat, k: nat)
    requires 1 <= k && n < Pow10(k)
    ensures |Digits(n)| <= k
  {
    if n >= 10 {
      assert k >= 2;
      DigitsBelow(n / 10, k - 1);
    }
  }

  lemma DigitsLength(n: nat)
    requires n <= TWO_31
    ensures |Digits(n)| <= 10
  {
    assert Pow10(10) == 10_000_000_000;
    DigitsBelow(n, 10);
  }

  /** `strtol` reads back exactly what `%d` wrote, for every `long`. */
  lemma {:induction false} StrtolDecimal(n: int)
    requires LONG_MIN <= n <= LONG_MAX
    ensures Strtol(Decimal(n)) == Conversion(n, |Decimal(n)|, false)
  {
    var s := Decimal(n);
    if n < 0 {
      var d := Digits(-n);
      assert s[0] == '-' && s[1..] == d;
      assert LeadingSpaces(s) == 0;
      DigitRunAll(d);
      assert d[..|d|] == d;
    } else {
      assert IsDigit(s[0]);
      assert LeadingSpaces(s) == 0;
      assert s[0..] == s && s[..|s|] == s;
      DigitRunAll(s);
    }
  }

  lemma DecimalShort(n: Int32)
    ensures |Decimal(n)| <= 11
  {
    var m: int := n;
    DigitsLength(if m < 0 then -m else m);
  }

  /** The handle keys JavaScript sends are read back as the handles. */
  lemma StringToLongRoundTrip(n: Int32)
    ensures StringToLong(Decimal(n)) == Some(n)
    ensures StringToLongAsWritten(Decimal(n)) == Some(n)
  {
    var s := Decimal(n);
    StrtolDecimal(n);
    DecimalShort(n);
    assert s[..|s|] == s;
  }

  /** Two handles never share a key. */
  lemma DecimalInjective(a: Int32, b: Int32)
    requires Decimal(a) == Decimal(b)
    ensures a == b
  {
    StringToLongRoundTrip(a);
    StringToLongRoundTrip(b);
  }

  /** Below the buffer size the two readings agree on every non-empty
      string. */
  lemma AsWrittenAgrees(s: string)
    requires 0 < |s| <= BUFFER_SIZE
    ensures StringToLongAsWritten(s) == StringToLong(s)
  {
    assert s[..|s|] == s;
  }

  lemma {:induction false} ZerosValue(n: nat)
    ensures AllDigits(seq(n, _ => '0'))
    ensures DecimalValue(seq(n, _ => '0')) == 0
    ensures DigitRun(seq(n, _ => '0')) == n
  {
    var z := seq(n, _ => '0');
    if n > 0 {
      ZerosValue(n - 1);
      assert z[..n - 1] == seq(n - 1, _ => '0');
    }
    DigitRunAll(z);
  }

  /** The 33-character key made of 32 zeros and a one names handle 1, but
      only its first 32 characters are converted, so it is read as 0. */
  lemma AsWrittenTruncates()
    ensures StringToLongAsWritten(seq(BUFFER_SIZE, _ => '0') + "1") == Some(0)
    ensures StringToLong(seq(BUFFER_SIZE, _ => '0') + "1") == Some(1)
  {
    var z := seq(BUFFER_SIZE, _ => '0');
    var s := z + "1";
    ZerosValue(BUFFER_SIZE);
    assert s[..BUFFER_SIZE] == z;
    assert LeadingSpaces(z) == 0;
    assert z[0..] == z && z[..BUFFER_SIZE] == z;
    assert LeadingSpaces(s) == 0;
    assert AllDigits(s);
    DigitRunAll(s);
    assert s[0..] == s && s[..|s|] == s;
    assert s[..|s| - 1] == z;
  }

  /** The empty key has no digits, so `strtol` leaves `end` at the start of
      the buffer, which is also its end: it is read as handle 0. */
  lemma AsWrittenAcceptsEmpty()
    ensures StringToLongAsWritten("") == Some(0)
    ensures StringToLong("") == None
  {
  }
}
