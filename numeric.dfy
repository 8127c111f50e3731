/** `Number(quantity)`: the conversion the shopping list applies to the raw
    quantity field before checking that it is a positive number. The value
    is an exact `real`; a string that is not a number (`NaN`) is `None`. */
module Numeric {
  import opened Text

  datatype Option<T> = None | Some(value: T)

  predicate IsDigit(c: char) {
    '0' <= c <= '9'
  }

  predicate AllDigits(s: string) {
    forall i :: 0 <= i < |s| ==> IsDigit(s[i])
  }

  function DigitValue(c: char): (d: nat)
    requires IsDigit(c)
    ensures d < 10
  {
    c as int - '0' as int
  }

  /** The length of the longest all-digit prefix of `s`. */
  function DigitSpan(s: string): (k: nat)
    ensures k <= |s|
    ensures AllDigits(s[..k])
    ensures k < |s| ==> !IsDigit(s[k])
  {
    if |s| > 0 && IsDigit(s[0]) then
      var k' := DigitSpan(s[1..]);
      assert s[..1 + k'] == [s[0]] + s[1..][..k'];
      1 + k'
    else 0
  }

  /** The value of a string of decimal digits, most significant first. */
  function DigitsValue(ds: string): nat
    requires AllDigits(ds)
  {
    if ds == [] then 0 else 10 * DigitsValue(ds[..|ds| - 1]) + DigitValue(ds[|ds| - 1])
  }

  function Pow10(e: nat): (p: nat)
    ensures p >= 1
  {
    if e == 0 then 1 else 10 * Pow10(e - 1)
  }

  lemma QuotientNonNegative(a: real, d: real)
    requires a >= 0.0 && d >= 1.0
    ensures a / d >= 0.0
  {
  }

  /** An optional exponent part, `e` or `E`, an optional sign and at least
      one digit, applied to the mantissa `m`; anything else left over after
      the mantissa makes the string not a number. */
  function ScaleByExponent(m: real, s: string): (r: Option<real>)
    requires m >= 0.0
    ensures r.Some? ==> r.value >= 0.0
    ensures s == [] ==> r == Some(m)
  {
    if s == [] then Some(m)
    else if s[0] != 'e' && s[0] != 'E' then None
    else
      var signed := |s| > 1 && (s[1] == '-' || s[1] == '+');
      var digits := if signed then s[2..] else s[1..];
      if digits == [] || DigitSpan(digits) != |digits| then None
      else
        assert digits[..|digits|] == digits;
        Some(Scale(m, s[1] == '-', DigitsValue(digits)))
  }

  /** `m` times ten to the power `e`, or divided by it when the exponent
      is negative. Scaling never changes the sign, and scaling down undoes
      scaling up. */
  function Scale(m: real, negative: bool, e: nat): (r: real)
    requires m >= 0.0
    ensures r >= 0.0
    ensures negative ==> r * Pow10(e) as real == m
    ensures !negative ==> r / Pow10(e) as real == m
  {
    var p := Pow10(e) as real;
    QuotientNonNegative(m, p);
    if negative then m / p else m * p
  }

  /** The value of the integer digits `ds` and the fraction digits `fs` of
      a literal: `ds` as a whole number plus `fs` read as a fraction with
      `|fs|` places. */
  function Mantissa(ds: string, fs: string): (m: real)
    requires AllDigits(ds) && AllDigits(fs)
    ensures m >= 0.0
    ensures fs == [] ==> m == DigitsValue(ds) as real
  {
    assert fs == [] ==> DigitsValue(fs) == 0 && Pow10(|fs|) == 1;
    QuotientNonNegative(DigitsValue(fs) as real, Pow10(|fs|) as real);
    DigitsValue(ds) as real + DigitsValue(fs) as real / Pow10(|fs|) as real
  }

  /** An unsigned decimal literal: digits, an optional `.` with more digits,
      at least one digit in all, then an optional exponent. */
  function ParseUnsigned(s: string): (r: Option<real>)
    ensures r.Some? ==> r.value >= 0.0
  {
    var i := DigitSpan(s);
    var afterInt := s[i..];
    var hasPoint := afterInt != [] && afterInt[0] == '.';
    var f := if hasPoint then DigitSpan(afterInt[1..]) else 0;
    var fraction := if hasPoint then afterInt[1..][..f] else [];
    var rest := if hasPoint then afterInt[1 + f..] else afterInt;
    if i == 0 && f == 0 then None
    else ScaleByExponent(Mantissa(s[..i], fraction), rest)
  }

  /** `Number(s)`: surrounding white space is ignored, a blank string is 0,
      and an optional sign may precede the unsigned literal. */
  function ParseNumber(s: string): (r: Option<real>)
    ensures Trim(s) == [] ==> r == Some(0.0)
    ensures r.Some? && r.value < 0.0 ==> Trim(s)[0] == '-'
  {
    var t := Trim(s);
    if t == [] then Some(0.0)
    else if t[0] == '-' then
      match ParseUnsigned(t[1..])
      case Some(v) => Some(-v)
      case None => None
    else if t[0] == '+' then ParseUnsigned(t[1..])
    else ParseUnsigned(t)
  }

  /** The quantity check of the add handler passes: the field is a number
      and that number is greater than zero. */
  predicate IsPositiveQuantity(s: string) {
    var r := ParseNumber(s);
    r.Some? && r.value > 0.0
  }

  /** A blank field, or one whose trimmed text starts with a minus sign,
      never passes the quantity check, `"-0"` included. */
  lemma QuantityCheckRejects(s: string)
    ensures Trim(s) == [] ==> !IsPositiveQuantity(s)
    ensures Trim(s) != [] && Trim(s)[0] == '-' ==> !IsPositiveQuantity(s)
  {
  }

  function DigitChar(d: nat): (c: char)
    requires d < 10
    ensures IsDigit(c) && DigitValue(c) == d
  {
    ('0' as int + d) as char
  }

  /** The decimal numeral of `n`, without leading zeros. */
  function Decimal(n: nat): (s: string)
    ensures |s| > 0 && AllDigits(s)
  {
    if n < 10 then [DigitChar(n)] else Decimal(n / 10) + [DigitChar(n % 10)]
  }

  lemma {:induction false} DecimalValue(n: nat)
    ensures DigitsValue(Decimal(n)) == n
  {
    if n >= 10 {
      var s := Decimal(n);
      assert s[..|s| - 1] == Decimal(n / 10);
      DecimalValue(n / 10);
    }
  }

  /** A string of digits alone is read as its decimal value. */
  lemma ParseDigits(s: string)
    requires |s| > 0 && AllDigits(s)
    ensures ParseUnsigned(s) == Some(DigitsValue(s) as real)
  {
    assert DigitSpan(s) == |s|;
    assert s[..|s|] == s;
    assert s[|s|..] == [];
    assert DigitsValue([]) == 0 && Pow10(0) == 1;
    assert ScaleByExponent(DigitsValue(s) as real, []) == Some(DigitsValue(s) as real);
  }

  /** A numeral reads back as the number it was written from: `Number`
      inverts the decimal rendering of every natural number. */
  lemma ParseDecimal(n: nat)
    ensures ParseNumber(Decimal(n)) == Some(n as real)
  {
    var s := Decimal(n);
    assert IsDigit(s[0]) && IsDigit(s[|s| - 1]);
    TrimmedIsTrim(s);
    assert Trim(s) == s;
    assert s[0] != '-' && s[0] != '+';
    assert ParseNumber(s) == ParseUnsigned(s);
    ParseDigits(s);
    DecimalValue(n);
  }

  /** A whole-number quantity passes the positivity check exactly when it
      is not zero. */
  lemma DecimalIsPositive(n: nat)
    ensures IsPositiveQuantity(Decimal(n)) <==> n > 0
  {
    ParseDecimal(n);
  }

  /** The digit prefix of `ds + t` is `ds` when `t` does not start with a
      digit. */
  lemma {:induction false} DigitSpanAppend(ds: string, t: string)
    requires AllDigits(ds)
    requires t == [] || !IsDigit(t[0])
    ensures DigitSpan(ds + t) == |ds|
    decreases |ds|
  {
    if ds != [] {
      assert (ds + t)[1..] == ds[1..] + t;
      DigitSpanAppend(ds[1..], t);
    } else {
      assert ds + t == t;
    }
  }

  /** A literal with a decimal point: the integer digits, then the
      fraction digits scaled down by their count. Either part may be empty,
      but not both. */
  lemma ParseFraction(ds: string, fs: string)
    requires AllDigits(ds) && AllDigits(fs) && |ds| + |fs| > 0
    ensures ParseUnsigned(ds + ['.'] + fs) == Some(Mantissa(ds, fs))
  {
    var s := ds + ['.'] + fs;
    DigitSpanAppend(ds, ['.'] + fs);
    assert s == ds + (['.'] + fs);
    assert s[..|ds|] == ds;
    var afterInt := s[|ds|..];
    assert afterInt == ['.'] + fs;
    assert afterInt[1..] == fs;
    DigitSpanAppend(fs, []);
    assert fs + [] == fs;
    assert DigitSpan(afterInt[1..]) == |fs|;
    assert afterInt[1..][..|fs|] == fs;
    assert afterInt[1 + |fs|..] == [];
    var m := Mantissa(ds, fs);
    assert ScaleByExponent(m, []) == Some(m);
    assert ParseUnsigned(s) == ScaleByExponent(m, afterInt[1 + |fs|..]);
  }

  /** An exponent part: `e`, an optional minus sign and the exponent
      digits multiply or divide the mantissa by that power of ten. */
  lemma ExponentPart(m: real, neg: bool, es: string)
    requires m >= 0.0 && AllDigits(es) && es != []
    ensures ScaleByExponent(m, ['e'] + (if neg then ['-'] else []) + es)
              == Some(Scale(m, neg, DigitsValue(es)))
  {
    var rest := ['e'] + (if neg then ['-'] else []) + es;
    var digits := if neg then rest[2..] else rest[1..];
    assert digits == es;
    DigitSpanAppend(es, []);
    assert es + [] == es;
    assert es[..|es|] == es;
    assert neg <==> rest[1] == '-';
    assert |rest| > 1 && (rest[1] == '-' || rest[1] == '+') <==> neg;
  }

  /** A literal with an exponent: the digits, `e`, an optional minus sign
      and the exponent digits; the value is the digits' value scaled by that
      power of ten, up or (after the minus sign) down. */
  lemma ParseExponent(ds: string, neg: bool, es: string)
    requires AllDigits(ds) && ds != [] && AllDigits(es) && es != []
    ensures ParseUnsigned(ds + ['e'] + (if neg then ['-'] else []) + es)
              == Some(Scale(DigitsValue(ds) as real, neg, DigitsValue(es)))
  {
    var rest := ['e'] + (if neg then ['-'] else []) + es;
    var s := ds + ['e'] + (if neg then ['-'] else []) + es;
    assert s == ds + rest;
    DigitSpanAppend(ds, rest);
    assert s[..|ds|] == ds;
    assert s[|ds|..] == rest;
    assert Mantissa(ds, []) == DigitsValue(ds) as real;
    assert ParseUnsigned(s) == ScaleByExponent(Mantissa(ds, []), rest);
    ExponentPart(DigitsValue(ds) as real, neg, es);
  }

  /** A string that starts with anything but a digit or a point after the
      optional sign (a second sign, a letter) is not a number. */
  lemma NotANumeral(s: string)
    requires s != [] && !IsDigit(s[0]) && s[0] != '.'
    ensures ParseUnsigned(s) == None
  {
    assert DigitSpan(s) == 0;
  }

  /** A point with no digit on either side, or an exponent marker with no
      digits after it, is not a number. */
  lemma IncompleteNumeral(ds: string)
    requires AllDigits(ds)
    ensures ds == [] ==> ParseUnsigned(['.']) == None
    ensures ds != [] ==> ParseUnsigned(ds + ['e']) == None
  {
    DigitSpanAppend([], ['.']);
    assert ParseUnsigned(['.']) == None;
    DigitSpanAppend(ds, ['e']);
    assert (ds + ['e'])[|ds|..] == ['e'];
  }

  /** A trimmed string that starts with neither sign is read as an
      unsigned literal, and one that starts with a minus sign as the
      negated unsigned literal after it. */
  lemma SignedNumeral(s: string)
    requires IsTrimmed(s)
    ensures s[0] != '-' && s[0] != '+' ==> ParseNumber(s) == ParseUnsigned(s)
    ensures s[0] == '+' ==> ParseNumber(s) == ParseUnsigned(s[1..])
    ensures s[0] == '-' ==> ParseNumber(s) == match ParseUnsigned(s[1..])
                                              case Some(v) => Some(-v)
                                              case None => None
  {
    TrimmedIsTrim(s);
  }
}
