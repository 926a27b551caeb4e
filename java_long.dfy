/**
 * Java's 64-bit `long`: the integer type of the language's Integer values.
 * Arithmetic wraps around in two's complement, `/` truncates toward zero and
 * throws on a zero divisor, and the conversions used by the interpreter
 * (`Long.parseLong`, `Long.toString`, and the `(int)` cast of a `double`
 * obtained from a `long`) are written out here.
 */
module JavaLong {
  import opened Wrappers

  const MIN: int := -0x8000_0000_0000_0000
  const MAX: int := 0x7fff_ffff_ffff_ffff
  const MODULUS: int := 0x1_0000_0000_0000_0000
  const INT_MIN: int := -0x8000_0000
  const INT_MAX: int := 0x7fff_ffff

  type Long = v: int | MIN <= v <= MAX

  /**
   * The milliseconds `Thread.sleep` is given for a delay of `v` seconds: the
   * `long` product `v * 1000`, the product itself whenever it fits.
   */
  function SleepMillis(v: Long): (r: Long)
    ensures MIN <= v * 1000 <= MAX ==> r == v * 1000
  {
    Mul(v, 1000)
  }

  /** A delay too long for a `long` of milliseconds wraps to a negative duration. */
  lemma SleepMillisWraps()
    ensures SleepMillis(9_223_372_036_854_776) == MIN + 192
  {
    assert 9_223_372_036_854_776 * 1000 == MODULUS / 2 + 192;
  }

  /** Two's-complement reduction of a mathematical integer into the `long` range. */
  function Wrap(v: int): (r: Long)
    ensures (r - v) % MODULUS == 0
    ensures MIN <= v <= MAX ==> r == v
  {
    (v - MIN) % MODULUS + MIN
  }

  function Add(a: Long, b: Long): Long { Wrap(a + b) }
  function Sub(a: Long, b: Long): Long { Wrap(a - b) }
  function Mul(a: Long, b: Long): Long { Wrap(a * b) }
  function Neg(a: Long): Long { Wrap(-(a as int)) }

  function Abs(a: int): nat { if a < 0 then -a else a }

  /** Java's integer quotient: rounds toward zero. */
  function Quot(a: int, b: int): int
    requires b != 0
  {
    var q := Abs(a) / Abs(b);
    if (a < 0) == (b < 0) then q else -q
  }

  /** Java's integer remainder: takes the sign of the dividend. */
  function Rem(a: int, b: int): int
    requires b != 0
  {
    a - b * Quot(a, b)
  }

  /** Quotient and remainder of `Quot`/`Rem` are Java's: the remainder is smaller than the divisor and has the dividend's sign. */
  lemma QuotRem(a: int, b: int)
    requires b != 0
    ensures a == b * Quot(a, b) + Rem(a, b)
    ensures Abs(Rem(a, b)) < Abs(b)
    ensures Rem(a, b) == 0 || (Rem(a, b) < 0 <==> a < 0)
    ensures Abs(Quot(a, b)) == Abs(a) / Abs(b)
  {
    QuotientOfMagnitudes(Abs(a), Abs(b));
    if a >= 0 {
      RemOfNonNegative(a, b);
    } else {
      RemOfNegative(a, b);
    }
  }

  lemma QuotientOfMagnitudes(n: int, d: int)
    requires n >= 0 && d > 0
    ensures n / d >= 0
  {
  }

  /** A dividend of at least 0 leaves the remainder of the magnitudes. */
  lemma RemOfNonNegative(a: int, b: int)
    requires a >= 0 && b != 0
    ensures Rem(a, b) == a % Abs(b) && 0 <= a % Abs(b) < Abs(b)
  {
    var B, q := Abs(b), a / Abs(b);
    assert a == B * q + a % B;
    if b < 0 {
      assert b * Quot(a, b) == B * q by { NegMul(b, q); }
    }
  }

  /** A negative dividend leaves the negated remainder of the magnitudes. */
  lemma RemOfNegative(a: int, b: int)
    requires a < 0 && b != 0
    ensures Rem(a, b) == -((-a) % Abs(b)) && 0 <= (-a) % Abs(b) < Abs(b)
  {
    var B, q := Abs(b), (-a) / Abs(b);
    assert -a == B * q + (-a) % B;
    assert b * Quot(a, b) == -(B * q) by {
      if b < 0 { NegMul(B, q); } else { NegMul(b, q); }
    }
  }

  lemma NegMul(x: int, y: int)
    ensures (-x) * y == -(x * y) && x * (-y) == -(x * y)
  {
  }

  /** `a / b` on `long`: `None` stands for the ArithmeticException of a zero divisor. */
  function Div(a: Long, b: Long): (r: Option<Long>)
    ensures r.None? <==> b == 0
  {
    if b == 0 then None else Some(Wrap(Quot(a, b)))
  }

  /** `(int) x` where `x` is the `double` of a `long`: saturates at the `int` bounds. */
  function ToInt(v: Long): (r: int)
    ensures INT_MIN <= r <= INT_MAX
    ensures INT_MIN <= v <= INT_MAX ==> r == v
    ensures v > INT_MAX ==> r == INT_MAX
    ensures v < INT_MIN ==> r == INT_MIN
  {
    if v > INT_MAX then INT_MAX else if v < INT_MIN then INT_MIN else v
  }

  predicate IsDigit(c: char) { '0' <= c <= '9' }

  predicate AllDigits(s: string) { forall i :: 0 <= i < |s| ==> IsDigit(s[i]) }

  function DigitChar(d: nat): (c: char)
    requires d < 10
    ensures IsDigit(c)
  {
    ['0', '1', '2', '3', '4', '5', '6', '7', '8', '9'][d]
  }

  function DigitValue(c: char): (d: nat)
    requires IsDigit(c)
    ensures d < 10
  {
    (c as int) - ('0' as int)
  }

  /** Decimal value of a string of digits, most significant first. */
  function ParseNat(s: string): nat
    requires AllDigits(s)
  {
    if |s| == 0 then 0 else ParseNat(s[..|s| - 1]) * 10 + DigitValue(s[|s| - 1])
  }

  /** Shortest decimal spelling of a natural number. */
  function NatDigits(n: nat): (s: string)
    ensures |s| > 0 && AllDigits(s)
  {
    if n < 10 then [DigitChar(n)] else NatDigits(n / 10) + [DigitChar(n % 10)]
  }

  /** `Long.toString`: an optional minus sign, then the digits of the magnitude. */
  function ToString(v: int): string
  {
    if v < 0 then "-" + NatDigits(-v) else NatDigits(v)
  }

  /** `Long.parseLong`: an optional sign, at least one digit, and a value within range; `None` is the NumberFormatException. */
  function ParseLong(s: string): Option<Long>
  {
    if |s| == 0 then None
    else
      var signed := s[0] == '-' || s[0] == '+';
      var digits := if signed then s[1..] else s;
      if |digits| == 0 || !AllDigits(digits) then None
      else
        var v: int := if s[0] == '-' then 0 - ParseNat(digits) else ParseNat(digits);
        if MIN <= v <= MAX then Some(v) else None
  }

  lemma {:induction false} ParseNatDigits(n: nat)
    ensures ParseNat(NatDigits(n)) == n
  {
    var s := NatDigits(n);
    if n >= 10 {
      ParseNatDigits(n / 10);
      assert s[..|s| - 1] == NatDigits(n / 10);
      assert DigitValue(s[|s| - 1]) == n % 10;
    } else {
      assert DigitValue(s[0]) == n;
    }
  }

  /** `Long.parseLong` undoes `Long.toString` on every `long`. */
  lemma ParseToString(v: Long)
    ensures ParseLong(ToString(v)) == Some(v)
  {
    if v < 0 {
      ParseNegative(v);
    } else {
      ParseNonNegative(v);
    }
  }

  lemma ParseNegative(v: Long)
    requires v < 0
    ensures ParseLong(ToString(v)) == Some(v)
  {
    var n: nat := -(v as int);
    var s := ToString(v);
    ParseNatDigits(n);
    assert s == "-" + NatDigits(n);
    assert s[1..] == NatDigits(n);
    assert ParseNat(s[1..]) == n;
  }

  lemma ParseNonNegative(v: Long)
    requires v >= 0
    ensures ParseLong(ToString(v)) == Some(v)
  {
    var s := ToString(v);
    ParseNatDigits(v);
    assert s == NatDigits(v);
    assert s[0] != '-' && s[0] != '+' by { assert IsDigit(s[0]); }
  }

  /** A `Long.toString` spelling is nonempty, and every character after the first is a digit. */
  lemma ToStringShape(v: int)
    ensures |ToString(v)| > 0
    ensures forall i :: 1 <= i < |ToString(v)| ==> IsDigit(ToString(v)[i])
  {
    if v < 0 {
      assert forall i :: 1 <= i < |ToString(v)| ==> ToString(v)[i] == NatDigits(-v)[i - 1];
    }
  }

  /** Distinct `long` values have distinct decimal spellings. */
  lemma ToStringInjective(a: Long, b: Long)
    requires ToString(a) == ToString(b)
    ensures a == b
  {
    ParseToString(a);
    ParseToString(b);
  }
}
