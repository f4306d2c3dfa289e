/** The global `parseFloat` and `parseInt` of ECMAScript (the latter with no
    radix argument), and the decimal text `Number.prototype.toString` gives an
    integer. Numbers are mathematical: a finite result is an exact `real`,
    with no IEEE-754 rounding or overflow. */
module JsNumber {
  import opened Wrappers
  import opened JsText

  /** A JavaScript number as far as the wallet needs one. */
  datatype Number = NaN | Finite(value: real) | Infinity(negative: bool)

  /** JavaScript's `n <= x` for a finite `x`: false whenever `n` is NaN. */
  predicate AtMost(n: Number, x: real) {
    match n
    case NaN => false
    case Finite(v) => v <= x
    case Infinity(negative) => negative
  }

  /** JavaScript's `n > x` for a finite `x`: false whenever `n` is NaN. */
  predicate Above(n: Number, x: real) {
    match n
    case NaN => false
    case Finite(v) => v > x
    case Infinity(negative) => !negative
  }

  /** The value of a digit in radices up to 36 ('0'-'9', then 'a'-'z' or
      'A'-'Z'); 36 for a character that is a digit in no radix. */
  function DigitValue(c: char): (d: nat)
    ensures d <= 36
  {
    if '0' <= c <= '9' then c as int - '0' as int
    else if 'a' <= c <= 'z' then c as int - 'a' as int + 10
    else if 'A' <= c <= 'Z' then c as int - 'A' as int + 10
    else 36
  }

  predicate IsDigit(c: char, radix: nat) {
    DigitValue(c) < radix
  }

  /** Splits `s` into its longest prefix of digits of `radix` and the rest:
      the scan stops exactly at the first character that is not a digit. */
  function SplitDigits(s: string, radix: nat): (r: (string, string))
    ensures r.0 + r.1 == s
    ensures forall i :: 0 <= i < |r.0| ==> IsDigit(r.0[i], radix)
    ensures r.1 != [] ==> !IsDigit(r.1[0], radix)
  {
    if s != [] && IsDigit(s[0], radix) then
      var (digits, rest) := SplitDigits(s[1..], radix);
      ([s[0]] + digits, rest)
    else ([], s)
  }

  /** The number a string of digits denotes in `radix`, most significant first. */
  function DigitsValue(s: string, radix: nat): nat {
    if s == [] then 0 else DigitsValue(s[..|s| - 1], radix) * radix + DigitValue(s[|s| - 1])
  }

  function Pow10(e: nat): (p: nat)
    ensures p >= 1
  {
    if e == 0 then 1 else 10 * Pow10(e - 1)
  }

  /** Ten to an integer power, as a real. */
  function TenTo(e: int): real {
    if e >= 0 then Pow10(e) as real else 1.0 / Pow10(-e) as real
  }

  lemma TenToIsPositive(e: int)
    ensures TenTo(e) > 0.0
  {
  }

  /** The sign and the rest of a string whose leading whitespace is gone:
      `-` makes it negative, `+` and `-` are both dropped. */
  function SplitSign(t: string): (bool, string) {
    if t != [] && (t[0] == '-' || t[0] == '+') then (t[0] == '-', t[1..]) else (false, t)
  }

  /** The exponent an ExponentPart at the start of `s` denotes (`e` or `E`, an
      optional sign, at least one decimal digit), or 0 when `s` does not start
      with a complete one, since the longest numeric prefix then stops before it. */
  function ExponentPrefix(s: string): int {
    if |s| >= 2 && (s[0] == 'e' || s[0] == 'E') then
      var (negative, rest) := SplitSign(s[1..]);
      var (digits, _) := SplitDigits(rest, 10);
      var v: int := DigitsValue(digits, 10);
      if digits == [] then 0 else if negative then -v else v
    else 0
  }

  /** The longest prefix of `unsigned` that is a StrUnsignedDecimalLiteral
      (`Infinity`, or decimal digits with an optional fraction and exponent),
      read as a number; NaN when there is none. */
  function UnsignedDecimal(unsigned: string): Number {
    if "Infinity" <= unsigned then Infinity(false)
    else
      var (whole, rest) := SplitDigits(unsigned, 10);
      DecimalAfterWhole(whole, rest)
  }

  /** The rest of a decimal literal once its whole digits `whole` are read:
      an optional `.` and fraction digits, then an optional exponent; NaN
      when there are no digits at all. */
  function DecimalAfterWhole(whole: string, rest: string): Number {
    var (fraction, afterMantissa) :=
      if rest != [] && rest[0] == '.' then SplitDigits(rest[1..], 10) else ([], rest);
    if whole == [] && fraction == [] then NaN
    else Finite(Scaled(DigitsValue(whole + fraction, 10), ExponentPrefix(afterMantissa) - |fraction|))
  }

  /** A mantissa times ten to an exponent; never negative. */
  function Scaled(mantissa: nat, e: int): (v: real)
    ensures v >= 0.0
  {
    TenToIsPositive(e);
    NonNegativeProduct(mantissa as real, TenTo(e));
    mantissa as real * TenTo(e)
  }

  lemma ScaledByOne(mantissa: nat)
    ensures Scaled(mantissa, 0) == mantissa as real
  {
  }

  lemma NonNegativeProduct(x: real, y: real)
    requires x >= 0.0 && y > 0.0
    ensures x * y >= 0.0
  {
  }

  /** A number with the sign a leading `-` gives it. */
  function Signed(negative: bool, n: Number): Number {
    match n
    case NaN => NaN
    case Finite(v) => Finite(if negative then -v else v)
    case Infinity(_) => Infinity(negative)
  }

  /** `parseFloat(s)`: skip leading whitespace and take an optional sign,
      then read the longest decimal literal that follows; NaN when there is
      none. */
  function ParseFloat(s: string): (n: Number)
    ensures TrimStart(s) == [] ==> n == NaN
    ensures (n.Finite? && n.value < 0.0) || (n.Infinity? && n.negative) ==> TrimStart(s)[0] == '-'
  {
    var (negative, unsigned) := SplitSign(TrimStart(s));
    Signed(negative, UnsignedDecimal(unsigned))
  }

  /** `parseInt(s)` with no radix: skip leading whitespace, take an optional
      sign, read hexadecimal after a `0x` or `0X` prefix and decimal
      otherwise, and stop at the first non-digit; None (NaN) when no digit
      is read. */
  function ParseInt(s: string): (r: Option<int>)
    ensures TrimStart(s) == [] ==> r == None
    ensures r.Some? && r.value < 0 ==> TrimStart(s)[0] == '-'
  {
    var (negative, unsigned) := SplitSign(TrimStart(s));
    SignedInt(negative, UnsignedInt(unsigned))
  }

  /** An integer with the sign a leading `-` gives it; NaN stays NaN. */
  function SignedInt(negative: bool, v: Option<nat>): Option<int> {
    match v
    case None => None
    case Some(n) => Some(if negative then -(n as int) else n)
  }

  /** The digits `parseInt` reads once the sign is gone: hexadecimal after a
      `0x` or `0X` prefix, decimal otherwise, up to the first non-digit. */
  function UnsignedInt(unsigned: string): Option<nat> {
    var hex := |unsigned| >= 2 && unsigned[0] == '0' && (unsigned[1] == 'x' || unsigned[1] == 'X');
    var radix := if hex then 16 else 10;
    var (digits, _) := SplitDigits(if hex then unsigned[2..] else unsigned, radix);
    if digits == [] then None else Some(DigitsValue(digits, radix))
  }

  function DigitChar(d: nat): (c: char)
    requires d < 10
    ensures IsDigit(c, 10) && DigitValue(c) == d
  {
    ('0' as int + d) as char
  }

  /** The decimal digits of `n`, most significant first, with no leading zero. */
  function NatToDecimal(n: nat): (s: string)
    ensures s != []
    ensures forall i :: 0 <= i < |s| ==> IsDigit(s[i], 10)
    ensures s[0] == '0' ==> n == 0
    ensures |s| >= 2 ==> s[0] != '0'
  {
    if n < 10 then [DigitChar(n)] else NatToDecimal(n / 10) + [DigitChar(n % 10)]
  }

  /** `Number.prototype.toString()` of an integer value: a minus sign
      exactly when the value is negative, then decimal digits only. */
  function IntToString(i: int): (s: string)
    ensures s != [] && (s[0] == '-' <==> i < 0)
    ensures forall k :: (if i < 0 then 1 else 0) <= k < |s| ==> IsDigit(s[k], 10)
  {
    if i < 0 then "-" + NatToDecimal(-i) else NatToDecimal(i)
  }

  /** Reading back the decimal digits of `n` gives `n`. */
  lemma {:induction false} DecimalValue(n: nat)
    ensures DigitsValue(NatToDecimal(n), 10) == n
  {
    if n >= 10 {
      var s := NatToDecimal(n);
      assert s[..|s| - 1] == NatToDecimal(n / 10);
      DecimalValue(n / 10);
    }
  }

  /** A run of digits followed by text that does not start with one splits
      exactly there. */
  lemma {:induction false} SplitDigitsAt(digits: string, rest: string, radix: nat)
    requires forall i :: 0 <= i < |digits| ==> IsDigit(digits[i], radix)
    requires rest != [] ==> !IsDigit(rest[0], radix)
    ensures SplitDigits(digits + rest, radix) == (digits, rest)
  {
    var s := digits + rest;
    if digits == [] {
      assert s == rest;
    } else {
      assert s[0] == digits[0] && s[1..] == digits[1..] + rest;
      SplitDigitsAt(digits[1..], rest, radix);
      assert [digits[0]] + digits[1..] == digits;
    }
  }

  /** A string of digits is read to its end. */
  lemma SplitDigitsOfDigits(s: string, radix: nat)
    requires forall i :: 0 <= i < |s| ==> IsDigit(s[i], radix)
    ensures SplitDigits(s, radix) == (s, [])
  {
    SplitDigitsAt(s, [], radix);
    assert s + [] == s;
  }

  /** The sign `toString` writes: `-` for a negative number, nothing otherwise. */
  function SignText(negative: bool): string {
    if negative then "-" else ""
  }

  /** A sign followed by a digit has no whitespace to skip, and the sign
      splits off exactly. */
  lemma SignedTextParts(negative: bool, digits: string)
    requires digits != [] && IsDigit(digits[0], 10)
    ensures TrimStart(SignText(negative) + digits) == SignText(negative) + digits
    ensures SplitSign(SignText(negative) + digits) == (negative, digits)
  {
    var text := SignText(negative) + digits;
    DecimalDigitIsVisible(digits[0]);
    if negative {
      assert text[0] == '-' && text[1..] == digits;
    } else {
      assert text == digits;
    }
    TrimStartOfVisible(text);
  }

  /** A decimal digit is neither whitespace nor a sign. */
  lemma DecimalDigitIsVisible(c: char)
    requires IsDigit(c, 10)
    ensures '0' <= c <= '9'
    ensures !IsWhiteSpace(c) && c != '-' && c != '+'
  {
  }

  /** An optional minus sign followed by decimal digits, leading zeros
      included, is read by `parseInt` as the signed integer they denote. */
  lemma ParseIntOfSignedDigits(negative: bool, digits: string)
    requires digits != [] && forall i :: 0 <= i < |digits| ==> IsDigit(digits[i], 10)
    ensures ParseInt(SignText(negative) + digits) == SignedInt(negative, Some(DigitsValue(digits, 10)))
  {
    SignedTextParts(negative, digits);
    UnsignedIntOfDigits(digits);
  }

  /** A whole string of decimal digits is read to its end, in radix 10: a
      digit is never the `x` of a `0x` prefix, so a leading zero is just a
      digit. */
  lemma UnsignedIntOfDigits(digits: string)
    requires digits != [] && forall i :: 0 <= i < |digits| ==> IsDigit(digits[i], 10)
    ensures UnsignedInt(digits) == Some(DigitsValue(digits, 10))
  {
    if |digits| >= 2 {
      DecimalDigitIsVisible(digits[1]);
    }
    assert !(|digits| >= 2 && digits[0] == '0' && (digits[1] == 'x' || digits[1] == 'X'));
    SplitDigitsOfDigits(digits, 10);
  }

  /** `parseInt` reads back the text `toString` gives an integer. */
  lemma ParseIntOfIntToString(i: int)
    ensures ParseInt(IntToString(i)) == Some(i)
  {
    var n: nat := if i < 0 then -i else i;
    var digits := NatToDecimal(n);
    assert IntToString(i) == SignText(i < 0) + digits;
    ParseIntOfSignedDigits(i < 0, digits);
    DecimalValue(n);
  }

  /** A whole string of decimal digits is read as exactly the integer it
      denotes. */
  lemma UnsignedDecimalOfDigits(digits: string)
    requires digits != [] && forall i :: 0 <= i < |digits| ==> IsDigit(digits[i], 10)
    ensures UnsignedDecimal(digits) == Finite(DigitsValue(digits, 10) as real)
  {
    DigitsAreNotInfinity(digits);
    SplitDigitsOfDigits(digits, 10);
    assert digits + [] == digits;
    assert ExponentPrefix([]) - 0 == 0;
    ScaledByOne(DigitsValue(digits, 10));
  }

  /** Text that starts with a digit is not the word `Infinity`. */
  lemma DigitsAreNotInfinity(digits: string)
    requires digits != [] && IsDigit(digits[0], 10)
    ensures !("Infinity" <= digits)
  {
    assert "Infinity"[0] == 'I';
  }

  /** An optional minus sign followed by decimal digits is read as exactly
      the signed integer it denotes. */
  lemma ParseFloatOfSignedDigits(negative: bool, digits: string)
    requires digits != [] && forall i :: 0 <= i < |digits| ==> IsDigit(digits[i], 10)
    ensures ParseFloat(SignText(negative) + digits) == Signed(negative, Finite(DigitsValue(digits, 10) as real))
  {
    SignedTextParts(negative, digits);
    UnsignedDecimalOfDigits(digits);
  }

  /** `parseFloat` reads back the text `toString` gives an integer. */
  lemma ParseFloatOfIntToString(i: int)
    ensures ParseFloat(IntToString(i)) == Finite(i as real)
  {
    var n: nat := if i < 0 then -i else i;
    var digits := NatToDecimal(n);
    assert IntToString(i) == SignText(i < 0) + digits;
    ParseFloatOfSignedDigits(i < 0, digits);
    DecimalValue(n);
  }



  /** A decimal literal with a fraction, `whole.fraction`, is read as
      exactly the number it denotes: its digits over ten to the length of
      the fraction. */
  lemma ParseFloatOfFraction(whole: string, fraction: string)
    requires whole != [] && forall i :: 0 <= i < |whole| ==> IsDigit(whole[i], 10)
    requires forall i :: 0 <= i < |fraction| ==> IsDigit(fraction[i], 10)
    ensures ParseFloat(whole + ("." + fraction)) == Finite(DigitsValue(whole + fraction, 10) as real / Pow10(|fraction|) as real)
  {
    var text := whole + ("." + fraction);
    assert text[0] == whole[0] && SignText(false) + text == text;
    SignedTextParts(false, text);
    UnsignedDecimalOfFraction(whole, fraction);
    TenthsScale(DigitsValue(whole + fraction, 10), |fraction|);
  }

  /** The unsigned reading of `whole.fraction`. */
  lemma UnsignedDecimalOfFraction(whole: string, fraction: string)
    requires whole != [] && forall i :: 0 <= i < |whole| ==> IsDigit(whole[i], 10)
    requires forall i :: 0 <= i < |fraction| ==> IsDigit(fraction[i], 10)
    ensures UnsignedDecimal(whole + ("." + fraction)) == Finite(Scaled(DigitsValue(whole + fraction, 10), 0 - |fraction|))
  {
    FractionSplits(whole, fraction);
    assert UnsignedDecimal(whole + ("." + fraction)) == DecimalAfterWhole(whole, "." + fraction);
    DecimalAfterPoint(whole, fraction);
  }

  /** After the whole digits, a point and fraction digits that run to the
      end are read with no exponent. */
  lemma DecimalAfterPoint(whole: string, fraction: string)
    requires whole != [] && forall i :: 0 <= i < |fraction| ==> IsDigit(fraction[i], 10)
    ensures DecimalAfterWhole(whole, "." + fraction) == Finite(Scaled(DigitsValue(whole + fraction, 10), 0 - |fraction|))
  {
    PointThen(fraction);
    SplitDigitsOfDigits(fraction, 10);
    NoExponent();
  }

  lemma PointThen(fraction: string)
    ensures ("." + fraction) != [] && ("." + fraction)[0] == '.' && ("." + fraction)[1..] == fraction
  {
    assert ("." + fraction)[1..] == fraction;
  }

  /** Nothing after the mantissa is no exponent. */
  lemma NoExponent()
    ensures ExponentPrefix([]) == 0
  {
  }

  /** How the scan of `parseFloat` starts on `whole.fraction`: it is not
      `Infinity`, and the whole part runs up to the point. */
  lemma FractionSplits(whole: string, fraction: string)
    requires whole != [] && forall i :: 0 <= i < |whole| ==> IsDigit(whole[i], 10)
    requires forall i :: 0 <= i < |fraction| ==> IsDigit(fraction[i], 10)
    ensures !("Infinity" <= whole + ("." + fraction))
    ensures SplitDigits(whole + ("." + fraction), 10) == (whole, "." + fraction)
  {
    assert (whole + ("." + fraction))[0] == whole[0];
    DigitsAreNotInfinity(whole + ("." + fraction));
    SplitDigitsAt(whole, "." + fraction, 10);
  }

  /** Scaling down by `k` digits divides by ten to the `k`. */
  lemma TenthsScale(mantissa: nat, k: nat)
    ensures Scaled(mantissa, 0 - k) == mantissa as real / Pow10(k) as real
  {
  }

  /** An empty input is not a number: the case where the Send button's
      `!sendAmount` test and `parseFloat` agree. */
  lemma ParseFloatOfEmpty()
    ensures ParseFloat("") == NaN
  {
  }
}
