/**
 * Decimal numbers as the application reads and writes them, in integer cents:
 * the scanner behind `parseFloat` (a decimal prefix after leading white space)
 * and `Number` (the whole trimmed string, with "" read as 0), and `String(x)`
 * for an amount of cents. Exponents, hexadecimal and `Infinity` are not read;
 * fraction digits beyond the second are dropped (truncated toward zero).
 */
module Numbers {
  import opened Ledger
  import opened Text

  predicate IsDigit(c: char) {
    '0' <= c <= '9'
  }

  predicate AllDigits(s: string) {
    forall i :: 0 <= i < |s| ==> IsDigit(s[i])
  }

  function DigitValue(c: char): nat
    requires IsDigit(c)
  {
    c as int - '0' as int
  }

  function DigitChar(d: nat): (c: char)
    requires d < 10
    ensures IsDigit(c) && DigitValue(c) == d
  {
    ('0' as int + d) as char
  }

  /** The decimal digits of `n`, without leading zeros ("0" for zero). */
  function Digits(n: nat): (s: string)
    ensures |s| >= 1 && AllDigits(s)
    ensures |s| > 1 ==> s[0] != '0'
  {
    if n < 10 then [DigitChar(n)] else Digits(n / 10) + [DigitChar(n % 10)]
  }

  /** The number a string of digits denotes. */
  function ValueOf(s: string): nat
    requires AllDigits(s)
  {
    if s == [] then 0 else ValueOf(s[..|s| - 1]) * 10 + DigitValue(s[|s| - 1])
  }

  lemma {:induction false} ValueOfDigits(n: nat)
    ensures ValueOf(Digits(n)) == n
  {
    if n >= 10 {
      var s := Digits(n);
      assert s[..|s| - 1] == Digits(n / 10);
      ValueOfDigits(n / 10);
    }
  }

  /** How many digits `s` starts with. */
  function LeadingDigits(s: string): (k: nat)
    ensures k <= |s| && AllDigits(s[..k])
    ensures k < |s| ==> !IsDigit(s[k])
  {
    if s == [] || !IsDigit(s[0]) then 0
    else
      var k := LeadingDigits(s[1..]);
      assert s[..k + 1] == [s[0]] + s[1..][..k];
      k + 1
  }

  lemma {:induction false} LeadingDigitsOfDigitsThen(d: string, rest: string)
    requires AllDigits(d)
    requires rest == [] || !IsDigit(rest[0])
    ensures LeadingDigits(d + rest) == |d|
  {
    if d != [] {
      assert (d + rest)[1..] == d[1..] + rest;
      LeadingDigitsOfDigitsThen(d[1..], rest);
    }
  }

  /** The cents denoted by the digits after a decimal point: the first two, padded with zeros. */
  function Cents(frac: string): (c: nat)
    requires AllDigits(frac)
    ensures c < 100
  {
    if frac == [] then 0
    else if |frac| == 1 then DigitValue(frac[0]) * 10
    else DigitValue(frac[0]) * 10 + DigitValue(frac[1])
  }

  function Signed(negative: bool, magnitude: int): int {
    if negative then -magnitude else magnitude
  }

  /** A decimal literal read from the start of a string: its value and its length. */
  datatype Scan = Scan(cents: int, consumed: nat)

  /** Reads `digits[.digits]` (at least one digit) from the start of `s`: its magnitude in cents. */
  function ScanUnsigned(s: string): (r: Option<Scan>)
    ensures r.Some? ==> r.value.consumed <= |s| && r.value.cents >= 0
  {
    var i := LeadingDigits(s);
    var whole := ValueOf(s[..i]);
    if i < |s| && s[i] == '.' then
      var frac := s[i + 1..];
      var f := LeadingDigits(frac);
      if i == 0 && f == 0 then None
      else Some(Scan(whole * 100 + Cents(frac[..f]), i + 1 + f))
    else if i == 0 then None
    else Some(Scan(whole * 100, i))
  }

  /** Reads `[+-]digits[.digits]` (at least one digit) from the start of `s`. */
  function ScanDecimal(s: string): (r: Option<Scan>)
    ensures r.Some? ==> r.value.consumed <= |s|
  {
    var signLen := if |s| > 0 && (s[0] == '-' || s[0] == '+') then 1 else 0;
    var negative := |s| > 0 && s[0] == '-';
    match ScanUnsigned(s[signLen..])
    case Some(sc) => Some(Scan(Signed(negative, sc.cents), signLen + sc.consumed))
    case None => None
  }

  /** `parseFloat(s)`: the decimal prefix after leading white space; None stands for NaN. */
  function ParseFloat(s: string): Option<int> {
    match ScanDecimal(TrimStart(s))
    case Some(sc) => Some(sc.cents)
    case None => None
  }

  /** `Number(s)`: the whole trimmed string must be a decimal literal; "" is 0; None stands for NaN. */
  function NumberOf(s: string): Option<int> {
    var t := Trim(s);
    if t == "" then Some(0)
    else match ScanDecimal(t)
      case Some(sc) => if sc.consumed == |t| then Some(sc.cents) else None
      case None => None
  }

  /** The fraction part `String(x)` writes for a remainder of cents: none, one or two digits. */
  function FractionText(r: nat): (s: string)
    requires r < 100
    ensures AllDigits(s) && |s| <= 2
    ensures r != 0 ==> |s| >= 1
  {
    if r == 0 then ""
    else if r % 10 == 0 then [DigitChar(r / 10)]
    else [DigitChar(r / 10), DigitChar(r % 10)]
  }

  lemma CentsOfFractionText(r: nat)
    requires r < 100
    ensures Cents(FractionText(r)) == r
  {
  }

  /** The text of an amount of cents with `sep` as decimal separator and no trailing zeros. */
  function DecimalText(c: int, sep: char): string {
    var m := Abs(c);
    (if c < 0 then "-" else "") + Digits(m / 100)
      + (if m % 100 == 0 then "" else [sep] + FractionText(m % 100))
  }

  /** `String(x)` for the number `x` of `c` cents, e.g. 1250 is written "12.5". */
  function JsString(c: int): string {
    DecimalText(c, '.')
  }

  /** A scan that succeeds with `cents` after reading `consumed` characters. */
  predicate Reads(r: Option<Scan>, cents: int, consumed: nat) {
    r.Some? && r.value.cents == cents && r.value.consumed == consumed
  }

  lemma ScanWholeDigits(d: string)
    requires |d| >= 1 && AllDigits(d)
    ensures Reads(ScanUnsigned(d), ValueOf(d) * 100, |d|)
  {
    LeadingDigitsOfDigitsThen(d, "");
    assert d + "" == d && d[..|d|] == d;
  }

  lemma ScanDigitsAndFraction(d: string, ft: string)
    requires |d| >= 1 && AllDigits(d) && AllDigits(ft)
    ensures Reads(ScanUnsigned(d + ['.'] + ft), ValueOf(d) * 100 + Cents(ft), |d| + 1 + |ft|)
  {
    var s := d + ['.'] + ft;
    assert s == d + (['.'] + ft);
    LeadingDigitsOfDigitsThen(d, ['.'] + ft);
    var i := LeadingDigits(s);
    assert s[..i] == d;
    var frac := s[i + 1..];
    assert frac == ft;
    LeadingDigitsOfDigitsThen(ft, "");
    assert ft + "" == ft;
    assert frac[..LeadingDigits(frac)] == ft;
  }

  lemma {:induction false} ScanUnsignedJsText(m: nat)
    ensures var t := Digits(m / 100) + (if m % 100 == 0 then "" else ['.'] + FractionText(m % 100));
            Reads(ScanUnsigned(t), m, |t|)
  {
    var d := Digits(m / 100);
    ValueOfDigits(m / 100);
    if m % 100 == 0 {
      assert d + "" == d;
      ScanWholeDigits(d);
    } else {
      CentsOfFractionText(m % 100);
      ScanDigitsAndFraction(d, FractionText(m % 100));
      assert d + (['.'] + FractionText(m % 100)) == d + ['.'] + FractionText(m % 100);
    }
  }

  /** An optional minus sign before an unsigned literal negates what is read. */
  lemma ScanDecimalSigned(negative: bool, t: string, cents: int, consumed: nat)
    requires t != [] && IsDigit(t[0])
    requires Reads(ScanUnsigned(t), cents, consumed)
    ensures Reads(ScanDecimal((if negative then "-" else "") + t), Signed(negative, cents),
                  (if negative then 1 else 0) + consumed)
  {
    var s := (if negative then "-" else "") + t;
    if negative {
      assert s[1..] == t;
    } else {
      assert s == t;
    }
  }

  /** `String(x)` is a sign (for negative amounts) before the unsigned text. */
  lemma JsStringShape(c: int)
    ensures var m := Abs(c);
            JsString(c) == (if c < 0 then "-" else "")
              + (Digits(m / 100) + (if m % 100 == 0 then "" else ['.'] + FractionText(m % 100)))
    ensures JsString(c) != [] && !IsSpace(JsString(c)[0])
  {
  }

  /** Reading back what `String(x)` wrote gives `x` again, with either parser. */
  lemma {:induction false} ParseJsString(c: int)
    ensures Reads(ScanDecimal(JsString(c)), c, |JsString(c)|)
    ensures ParseFloat(JsString(c)) == Some(c)
  {
    var m := Abs(c);
    var t := Digits(m / 100) + (if m % 100 == 0 then "" else ['.'] + FractionText(m % 100));
    ScanUnsignedJsText(m);
    assert t[0] == Digits(m / 100)[0];
    ScanDecimalSigned(c < 0, t, m, |t|);
    JsStringShape(c);
    assert TrimStart(JsString(c)) == JsString(c);
  }

  /** The pieces of `DecimalText`: a sign, digits, and an optional separator and fraction. */
  lemma DecimalTextShape(c: int, sep: char)
    ensures var m := Abs(c);
            var head := (if c < 0 then "-" else "") + Digits(m / 100);
            var frac := FractionText(m % 100);
            DecimalText(c, sep) == (if m % 100 == 0 then head else head + [sep] + frac) &&
            head != [] && IsDigit(head[|head| - 1]) && (head[0] == '-' || IsDigit(head[0])) &&
            (forall i :: 0 <= i < |head| ==> head[i] == '-' || IsDigit(head[i])) &&
            (m % 100 != 0 ==> frac != [] && AllDigits(frac))
  {
    var m := Abs(c);
    var sign := if c < 0 then "-" else "";
    var head := sign + Digits(m / 100);
    if m % 100 != 0 {
      assert DecimalText(c, sep) == head + ([sep] + FractionText(m % 100));
    }
    forall i | 0 <= i < |head| ensures head[i] == '-' || IsDigit(head[i]) {
      if i >= |sign| {
        assert head[i] == Digits(m / 100)[i - |sign|];
      }
    }
  }

  /** Decimal text has nothing to trim. */
  lemma DecimalTextTrimmed(c: int, sep: char)
    requires !IsSpace(sep)
    ensures Trim(DecimalText(c, sep)) == DecimalText(c, sep)
  {
    DecimalTextShape(c, sep);
    var s := DecimalText(c, sep);
    assert !IsSpace(s[0]);
    assert TrimStart(s) == s;
    var m := Abs(c);
    if m % 100 != 0 {
      var frac := FractionText(m % 100);
      assert s[|s| - 1] == frac[|frac| - 1];
    }
    assert !IsSpace(s[|s| - 1]);
  }

  /** `String(x)` read back with `Number` gives `x` again. */
  lemma NumberOfJsString(c: int)
    ensures NumberOf(JsString(c)) == Some(c)
  {
    var s := JsString(c);
    DecimalTextTrimmed(c, '.');
    ParseJsString(c);
    var sc := ScanDecimal(s);
    assert Trim(s) == s && sc.Some? && sc.value.cents == c && sc.value.consumed == |s|;
  }

  /** Written with a decimal point, an amount has no comma. */
  lemma NoCommaInJsString(c: int)
    ensures ',' !in JsString(c)
  {
    DecimalTextShape(c, '.');
    var m := Abs(c);
    var head := (if c < 0 then "-" else "") + Digits(m / 100);
    var s := JsString(c);
    forall i | 0 <= i < |s| ensures s[i] != ',' {
      if i < |head| {
        assert s[i] == head[i];
      } else if i > |head| {
        assert s[i] == FractionText(m % 100)[i - |head| - 1];
      }
    }
  }

  /**
   * Written with a decimal comma, an amount has no dot, and replacing its
   * first comma by a dot gives `String(x)`.
   */
  lemma CommaText(c: int)
    ensures '.' !in DecimalText(c, ',')
    ensures ReplaceFirst(DecimalText(c, ','), ',', '.') == JsString(c)
  {
    DecimalTextShape(c, ',');
    DecimalTextShape(c, '.');
    var m := Abs(c);
    var head := (if c < 0 then "-" else "") + Digits(m / 100);
    assert ',' !in head && '.' !in head by {
      forall i | 0 <= i < |head| ensures head[i] != ',' && head[i] != '.' {
      }
    }
    if m % 100 != 0 {
      var frac := FractionText(m % 100);
      FirstIndexAfter(head, ',', frac);
      assert '.' !in frac by {
        forall i | 0 <= i < |frac| ensures frac[i] != '.' {
          assert IsDigit(frac[i]);
        }
      }
      var s := head + [','] + frac;
      assert s[..|head|] == head && s[|head| + 1..] == frac;
      assert '.' !in s by {
        forall i | 0 <= i < |s| ensures s[i] != '.' {
          if i < |head| {
            assert s[i] == head[i];
          } else if i > |head| {
            assert s[i] == frac[i - |head| - 1];
          }
        }
      }
    }
  }
}
