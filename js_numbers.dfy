/** The part of JavaScript's string-to-number conversion that the duration
    filter exercises, and the comparison `n > 1` on its result. */
module JsNumbers {
  import opened Wrappers
  import opened JsStrings

  /** A JavaScript number as this model needs it: NaN, a signed infinity, or
      the exact finite value `mantissa / 10^scale` read from a decimal literal. */
  datatype Number = NaN | Infinity(negative: bool) | Finite(mantissa: int, scale: nat)

  function Pow10(n: nat): (r: nat)
    ensures r >= 1
  {
    if n == 0 then 1 else 10 * Pow10(n - 1)
  }

  predicate IsDigit(c: char)
  {
    '0' <= c <= '9'
  }

  predicate AllDigits(s: string)
  {
    forall k :: 0 <= k < |s| ==> IsDigit(s[k])
  }

  /** The value of a string of decimal digits, most significant first. */
  function DigitsValue(s: string): (v: nat)
    requires AllDigits(s)
    ensures v < Pow10(|s|)
  {
    if s == [] then 0 else 10 * DigitsValue(s[..|s| - 1]) + (s[|s| - 1] as int - '0' as int)
  }

  /** StrUnsignedDecimalLiteral (section 7.1.4.1 of ECMA-262) without an
      exponent part: `Infinity`, or digits with at most one `.` and at least
      one digit; anything else is NaN. */
  function UnsignedDecimal(s: string): (n: Number)
    ensures n.Infinity? ==> !n.negative
    ensures n.Finite? ==> n.mantissa >= 0
  {
    if s == "Infinity" then Infinity(false)
    else match IndexOf(s, ".")
      case None =>
        if s != [] && AllDigits(s) then Finite(DigitsValue(s), 0) else NaN
      case Some(j) =>
        var whole, fraction := s[..j], s[j + 1..];
        if |whole| + |fraction| >= 1 && AllDigits(whole) && AllDigits(fraction)
        then Finite(DigitsValue(whole + fraction), |fraction|)
        else NaN
  }

  function Negate(n: Number): Number
  {
    match n
    case NaN => NaN
    case Infinity(negative) => Infinity(!negative)
    case Finite(m, k) => Finite(-m, k)
  }

  /** StringToNumber (section 7.1.4.1.1 of ECMA-262): surrounding white space
      is ignored, the empty string is 0, an optional sign precedes the literal. */
  function ToNumber(s: string): Number
  {
    var t := Trim(s);
    if t == [] then Finite(0, 0)
    else if t[0] == '+' then UnsignedDecimal(t[1..])
    else if t[0] == '-' then Negate(UnsignedDecimal(t[1..]))
    else UnsignedDecimal(t)
  }

  /** The relational comparison `n > 1`; every comparison with NaN is false. */
  predicate GreaterThanOne(n: Number)
  {
    match n
    case NaN => false
    case Infinity(negative) => !negative
    case Finite(m, k) => m > Pow10(k)
  }

  /** A string of white space only, the empty string included, converts to 0. */
  lemma BlankIsZero(s: string)
    requires forall k :: 0 <= k < |s| ==> IsWhiteSpace(s[k])
    ensures ToNumber(s) == Finite(0, 0)
  {
  }

  /** The exact value of a finite number. */
  function Value(n: Number): real
    requires n.Finite?
  {
    n.mantissa as real / Pow10(n.scale) as real
  }

  /** A quotient by a positive divisor exceeds one exactly when the dividend
      exceeds the divisor. */
  lemma QuotientAboveOne(m: real, p: real)
    requires p > 0.0
    ensures m / p > 1.0 <==> m > p
  {
    var q := m / p;
    assert q * p == m;
    if q > 1.0 {
      assert q * p - p == (q - 1.0) * p;
    }
    if m > p {
      assert (q - 1.0) * p == m - p;
    }
  }

  /** `n > 1` compares the number's exact value with one: NaN never passes,
      positive infinity always does, negative infinity never does. */
  lemma GreaterThanOneValue(n: Number)
    ensures n.NaN? ==> !GreaterThanOne(n)
    ensures n.Infinity? ==> (GreaterThanOne(n) <==> !n.negative)
    ensures n.Finite? ==> (GreaterThanOne(n) <==> Value(n) > 1.0)
  {
    if n.Finite? {
      QuotientAboveOne(n.mantissa as real, Pow10(n.scale) as real);
    }
  }

  /** The decimal digits of a natural number (as `String(n)` prints it). */
  function Show(n: nat): (s: string)
    ensures |s| >= 1 && AllDigits(s) && DigitsValue(s) == n
  {
    if n < 10 then [('0' as int + n) as char]
    else
      var init := Show(n / 10);
      var s := init + [('0' as int + n % 10) as char];
      assert s[..|s| - 1] == init;
      s
  }

  /** Leading white space is what `TrimStart` removes. */
  lemma {:induction false} TrimStartPadded(pad: string, rest: string)
    requires forall k :: 0 <= k < |pad| ==> IsWhiteSpace(pad[k])
    requires rest != [] && !IsWhiteSpace(rest[0])
    ensures TrimStart(pad + rest) == rest
    decreases |pad|
  {
    if pad != [] {
      assert (pad + rest)[1..] == pad[1..] + rest;
      TrimStartPadded(pad[1..], rest);
    }
  }

  /** Trailing white space is what `TrimEnd` removes. */
  lemma {:induction false} TrimEndPadded(core: string, pad: string)
    requires forall k :: 0 <= k < |pad| ==> IsWhiteSpace(pad[k])
    requires core != [] && !IsWhiteSpace(core[|core| - 1])
    ensures TrimEnd(core + pad) == core
    decreases |pad|
  {
    if pad != [] {
      assert (core + pad)[..|core + pad| - 1] == core + pad[..|pad| - 1];
      TrimEndPadded(core, pad[..|pad| - 1]);
    } else {
      assert core + pad == core;
    }
  }

  /** `trim` removes exactly the white space around a core that starts and
      ends with other characters. */
  lemma TrimPadded(pad1: string, core: string, pad2: string)
    requires forall k :: 0 <= k < |pad1| ==> IsWhiteSpace(pad1[k])
    requires forall k :: 0 <= k < |pad2| ==> IsWhiteSpace(pad2[k])
    requires core != [] && !IsWhiteSpace(core[0]) && !IsWhiteSpace(core[|core| - 1])
    ensures Trim(pad1 + core + pad2) == core
  {
    assert pad1 + core + pad2 == pad1 + (core + pad2);
    TrimStartPadded(pad1, core + pad2);
    TrimEndPadded(core, pad2);
  }

  /** A string that starts with a digit is not the literal `Infinity`. */
  lemma NotInfinity(u: string)
    requires u != [] && IsDigit(u[0])
    ensures u != "Infinity"
  {
    assert u[0] != "Infinity"[0];
  }

  /** After trimming, a literal that starts with a digit is read unsigned. */
  lemma ToNumberUnsigned(pad1: string, u: string, pad2: string)
    requires forall k :: 0 <= k < |pad1| ==> IsWhiteSpace(pad1[k])
    requires forall k :: 0 <= k < |pad2| ==> IsWhiteSpace(pad2[k])
    requires u != [] && IsDigit(u[0]) && !IsWhiteSpace(u[|u| - 1])
    ensures ToNumber(pad1 + u + pad2) == UnsignedDecimal(u)
  {
    TrimPadded(pad1, u, pad2);
  }

  /** A non-empty run of digits converts to the value it spells. */
  lemma DigitsConvert(pad1: string, digits: string, pad2: string)
    requires digits != [] && AllDigits(digits)
    requires forall k :: 0 <= k < |pad1| ==> IsWhiteSpace(pad1[k])
    requires forall k :: 0 <= k < |pad2| ==> IsWhiteSpace(pad2[k])
    ensures ToNumber(pad1 + digits + pad2) == Finite(DigitsValue(digits), 0)
  {
    ToNumberUnsigned(pad1, digits, pad2);
    NotInfinity(digits);
    AbsentWithoutFirstChar(digits, ".");
  }

  /** A literal that starts with a digit and holds a character other than a
      digit or `.` converts to NaN. */
  lemma StrayCharacterConverts(pad1: string, u: string, pad2: string, i: nat)
    requires forall k :: 0 <= k < |pad1| ==> IsWhiteSpace(pad1[k])
    requires forall k :: 0 <= k < |pad2| ==> IsWhiteSpace(pad2[k])
    requires u != [] && IsDigit(u[0]) && !IsWhiteSpace(u[|u| - 1])
    requires i < |u| && !IsDigit(u[i]) && u[i] != '.'
    ensures ToNumber(pad1 + u + pad2) == NaN
  {
    ToNumberUnsigned(pad1, u, pad2);
    UnsignedStray(u, i);
  }

  /** An unsigned literal holding a character other than a digit or `.` is NaN. */
  lemma UnsignedStray(u: string, i: nat)
    requires u != [] && IsDigit(u[0])
    requires i < |u| && !IsDigit(u[i]) && u[i] != '.'
    ensures UnsignedDecimal(u) == NaN
  {
    NotInfinity(u);
    match IndexOf(u, ".")
    case None =>
    case Some(j) =>
      assert u[j..j + 1][0] == u[j];
      if i < j {
        assert u[..j][i] == u[i];
      } else {
        assert u[j + 1..][i - j - 1] == u[i];
      }
  }

  /** An unsigned literal with one `.` between digit runs is read exactly. */
  lemma UnsignedDecimalPoint(whole: string, fraction: string)
    requires whole != [] && AllDigits(whole) && AllDigits(fraction)
    ensures UnsignedDecimal(whole + "." + fraction) == Finite(DigitsValue(whole + fraction), |fraction|)
  {
    var u := whole + "." + fraction;
    NotInfinity(u);
    FirstOccurrenceAfter(whole, ".", fraction);
    assert u[..|whole|] == whole && u[|whole| + 1..] == fraction;
  }

  /** A decimal literal with a fractional part converts to its exact value. */
  lemma DecimalConverts(pad1: string, whole: string, fraction: string, pad2: string)
    requires whole != [] && AllDigits(whole) && fraction != [] && AllDigits(fraction)
    requires forall k :: 0 <= k < |pad1| ==> IsWhiteSpace(pad1[k])
    requires forall k :: 0 <= k < |pad2| ==> IsWhiteSpace(pad2[k])
    ensures ToNumber(pad1 + whole + "." + fraction + pad2) == Finite(DigitsValue(whole + fraction), |fraction|)
  {
    var u := whole + "." + fraction;
    assert u[0] == whole[0] && u[|u| - 1] == fraction[|fraction| - 1];
    assert pad1 + whole + "." + fraction + pad2 == pad1 + u + pad2;
    ToNumberUnsigned(pad1, u, pad2);
    UnsignedDecimalPoint(whole, fraction);
  }
}
