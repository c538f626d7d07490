/** The parts of the Java language and its core library that the modelled code
    relies on: exceptions as values, the range and wrap-around of `long` and
    `int`, division that truncates toward zero, the decimal form of a `long`
    (`Long.toString`, `StringBuilder.append(long)`), `Long.parseLong` on digit
    strings, and the ASCII character classes used by the regular expression in
    `Time.parse`. */
module JavaLang {

  /** The unchecked exceptions the modelled methods throw. */
  datatype Exception =
    | IllegalArgument          // java.lang.IllegalArgumentException
    | IndexOutOfBounds         // java.lang.IndexOutOfBoundsException and ArrayIndexOutOfBoundsException
    | StringIndexOutOfBounds   // java.lang.StringIndexOutOfBoundsException
    | ConcurrentModification   // java.util.ConcurrentModificationException

  /** A Java reference that may be `null`. */
  datatype Option<T> = None | Some(value: T)

  /** A call that returns a value or throws. */
  datatype Result<T> = Ok(value: T) | Throws(exc: Exception)

  /** A `void` call that returns normally or throws. */
  datatype Outcome = Pass | Fail(exc: Exception)

  const LONG_MIN: int := -0x8000_0000_0000_0000
  const LONG_MAX: int := 0x7fff_ffff_ffff_ffff
  const INT_MIN: int := -0x8000_0000
  const INT_MAX: int := 0x7fff_ffff

  predicate IsLong(x: int) { LONG_MIN <= x <= LONG_MAX }
  predicate IsInt(x: int) { INT_MIN <= x <= INT_MAX }

  /** Two's-complement wrap-around of a 64-bit `long` result: the `long` that
      differs from `x` by a multiple of 2^64. */
  function WrapLong(x: int): (r: int)
    ensures IsLong(r)
    ensures IsLong(x) ==> r == x
    decreases if x > LONG_MAX then x - LONG_MAX else if x < LONG_MIN then LONG_MIN - x else 0
  {
    if x > LONG_MAX then WrapLong(x - 0x1_0000_0000_0000_0000)
    else if x < LONG_MIN then WrapLong(x + 0x1_0000_0000_0000_0000)
    else x
  }

  /** Wrapping ignores multiples of 2^64. */
  lemma {:induction false} WrapLongPeriodic(x: int)
    ensures WrapLong(x + 0x1_0000_0000_0000_0000) == WrapLong(x)
    ensures WrapLong(x - 0x1_0000_0000_0000_0000) == WrapLong(x)
  {
  }

  /** Two's-complement wrap-around of a 32-bit `int` result. */
  function WrapInt(x: int): (r: int)
    ensures IsInt(r)
    ensures IsInt(x) ==> r == x
    ensures (x - r) % 0x1_0000_0000 == 0
  {
    (x - INT_MIN) % 0x1_0000_0000 + INT_MIN
  }

  /** Adding a wrapped value and then wrapping is wrapping once. */
  lemma {:induction false} WrapLongAdd(a: int, b: int)
    ensures WrapLong(a + WrapLong(b)) == WrapLong(a + b)
    decreases if b > LONG_MAX then b - LONG_MAX else if b < LONG_MIN then LONG_MIN - b else 0
  {
    if b > LONG_MAX {
      WrapLongAdd(a, b - 0x1_0000_0000_0000_0000);
      WrapLongPeriodic(a + b - 0x1_0000_0000_0000_0000);
    } else if b < LONG_MIN {
      WrapLongAdd(a, b + 0x1_0000_0000_0000_0000);
      WrapLongPeriodic(a + b);
    }
  }

  /** Java's `a / b` for a positive divisor: the quotient truncated toward zero. */
  function JDiv(a: int, b: int): (q: int)
    requires b > 0
    ensures a >= 0 ==> q >= 0 && 0 <= q * b <= a
    ensures a <= 0 ==> q <= 0
    ensures a <= 0 ==> a <= q * b <= 0
    ensures a >= 0 ==> a - q * b < b
    ensures a <= 0 ==> q * b - a < b
  {
    if a >= 0 then a / b else -((-a) / b)
  }

  /** Java's `a % b` for a positive divisor: the remainder takes the sign of `a`. */
  function JRem(a: int, b: int): (r: int)
    requires b > 0
    ensures a == JDiv(a, b) * b + r
    ensures a >= 0 ==> 0 <= r < b
    ensures a <= 0 ==> -b < r <= 0
  {
    a - JDiv(a, b) * b
  }

  /** Truncation is symmetric: the quotient and remainder of `-a` are those of `a`, negated. */
  lemma {:induction false} JDivNeg(a: int, b: int)
    requires b > 0
    ensures JDiv(-a, b) == -JDiv(a, b)
    ensures JRem(-a, b) == -JRem(a, b)
  {
  }

  /** Dividing by 1 leaves nothing over. */
  lemma {:induction false} JDivOne(a: int)
    ensures JDiv(a, 1) == a && JRem(a, 1) == 0
  {
  }

  /** The absolute value as `Math.abs(long)` computes it: `Long.MIN_VALUE` is its own negation. */
  function JavaAbs(x: int): (r: int)
    requires IsLong(x)
    ensures IsLong(r)
    ensures x != LONG_MIN ==> r >= 0 && (r == x || r == -x)
    ensures x == LONG_MIN ==> r == LONG_MIN
  {
    WrapLong(if x < 0 then -x else x)
  }

  // ---------------------------------------------------------------------------
  // Characters

  predicate IsDigit(c: char) { '0' <= c <= '9' }

  /** `\s` of java.util.regex without UNICODE_CHARACTER_CLASS: [ \t\n\x0B\f\r]. */
  predicate IsSpace(c: char) {
    c == ' ' || c == '\t' || c == '\n' || c == '\U{000B}' || c == '\U{000C}' || c == '\r'
  }

  /** `[a-zA-Z]`. */
  predicate IsLetter(c: char) { ('a' <= c <= 'z') || ('A' <= c <= 'Z') }

  predicate AllDigits(s: string) { forall i :: 0 <= i < |s| ==> IsDigit(s[i]) }

  function ToUpper(c: char): char {
    if 'a' <= c <= 'z' then (c as int - 32) as char else c
  }

  /** `String.equalsIgnoreCase` restricted to ASCII letters, which is all the modelled code ever compares. */
  predicate EqualsIgnoreCase(a: string, b: string) {
    |a| == |b| && forall i :: 0 <= i < |a| ==> ToUpper(a[i]) == ToUpper(b[i])
  }

  // ---------------------------------------------------------------------------
  // Decimal numerals

  function DigitChar(d: int): (c: char)
    requires 0 <= d < 10
    ensures IsDigit(c)
  {
    ('0' as int + d) as char
  }

  function DigitValue(c: char): (d: nat)
    requires IsDigit(c)
    ensures d < 10 && DigitChar(d) == c
  {
    c as int - '0' as int
  }

  /** The decimal digits of a natural number, most significant first, no leading zero. */
  function NatToString(n: nat): (s: string)
    ensures |s| >= 1 && AllDigits(s)
    decreases n
  {
    if n < 10 then [DigitChar(n)] else NatToString(n / 10) + [DigitChar(n % 10)]
  }

  /** `Long.toString(n)`: a minus sign for negative values, then the digits of the magnitude. */
  function LongToString(n: int): (s: string)
    ensures |s| >= 1
  {
    if n < 0 then "-" + NatToString(-n) else NatToString(n)
  }

  /** The number a string of decimal digits denotes. */
  function DigitsValue(s: string): nat
    requires AllDigits(s)
    decreases |s|
  {
    if s == [] then 0 else DigitsValue(s[..|s| - 1]) * 10 + DigitValue(s[|s| - 1])
  }

  /** Reading back the digits that `NatToString` writes gives the number. */
  lemma {:induction false} DigitsValueOfNatToString(n: nat)
    ensures DigitsValue(NatToString(n)) == n
    decreases n
  {
    var s := NatToString(n);
    if n >= 10 {
      DigitsValueOfNatToString(n / 10);
      assert s[..|s| - 1] == NatToString(n / 10);
    }
  }

  /** `Long.parseLong` on a string that holds no sign character: it succeeds exactly
      when the string is a non-empty run of digits whose value fits a `long`. */
  function ParseLong(s: string): (r: Option<int>)
    ensures r.Some? ==> 0 <= r.value <= LONG_MAX
  {
    if |s| > 0 && AllDigits(s) && DigitsValue(s) <= LONG_MAX then Some(DigitsValue(s)) else None
  }

  /** `Long.parseLong` inverts `Long.toString` on non-negative longs. */
  lemma {:induction false} ParseLongOfNatToString(n: nat)
    requires n <= LONG_MAX
    ensures ParseLong(NatToString(n)) == Some(n)
  {
    DigitsValueOfNatToString(n);
  }
}
