/** `parseInt` as the patients page applies it to the counts the statistics
    query returns, and the decimal text of an integer. */
module JsNumber {
  import opened Text

  /** A number as `parseInt` returns it; `NaN` when no digits were found. */
  datatype Num = Int(value: int) | NaN

  /** The value of a digit character in bases up to 36, or 36 for a character
      that is no digit at all. */
  function DigitValue(c: char): (d: nat)
    ensures d <= 36
  {
    if '0' <= c <= '9' then (c as int - '0' as int)
    else if 'a' <= c <= 'z' then (c as int - 'a' as int + 10)
    else if 'A' <= c <= 'Z' then (c as int - 'A' as int + 10)
    else 36
  }

  /** The longest prefix of `s` made of digits of the given base. */
  function DigitRun(s: string, base: nat): (r: string)
    ensures r <= s
    ensures forall i :: 0 <= i < |r| ==> DigitValue(r[i]) < base
    ensures |r| < |s| ==> DigitValue(s[|r|]) >= base
  {
    if s != [] && DigitValue(s[0]) < base then [s[0]] + DigitRun(s[1..], base) else []
  }

  /** The value of a string of digits in the given base, most significant first. */
  function DigitsValue(digits: string, base: nat): nat
  {
    if digits == [] then 0
    else DigitsValue(digits[..|digits| - 1], base) * base + DigitValue(digits[|digits| - 1])
  }

  /** `parseInt(s)` with no radix: leading whitespace is skipped, then an
      optional sign, then a `0x` or `0X` prefix selects base 16 (base 10
      otherwise), and the longest run of digits is read; no digits give `NaN`. */
  function ParseInt(s: string): (r: Num)
    ensures NoDecimalDigit(s) ==> r == NaN
  {
    NoDigitsNaN(s);
    ParseSigned(TrimStart(s))
  }

  /** No character of `s` is a decimal digit. */
  predicate NoDecimalDigit(s: string)
  {
    forall i :: 0 <= i < |s| ==> !('0' <= s[i] <= '9')
  }

  /** `parseInt` after the leading whitespace: an optional sign, then the magnitude. */
  function ParseSigned(t: string): Num
  {
    var negative := |t| > 0 && t[0] == '-';
    var unsigned := if |t| > 0 && (t[0] == '-' || t[0] == '+') then t[1..] else t;
    match ParseMagnitude(unsigned)
    case NaN => NaN
    case Int(m) => Int(if negative then 0 - m else m)
  }

  /** `parseInt` after the sign: a `0x` or `0X` prefix selects base 16, and the
      longest run of digits of the base is read; no digits give `NaN`. */
  function ParseMagnitude(u: string): Num
  {
    var hex := |u| >= 2 && u[0] == '0' && (u[1] == 'x' || u[1] == 'X');
    var base := if hex then 16 else 10;
    var digits := DigitRun(if hex then u[2..] else u, base);
    if digits == [] then NaN else Int(DigitsValue(digits, base))
  }

  /** Text without any decimal digit reads as `NaN`: a `0x` prefix needs its `0`. */
  lemma NoDigitsNaN(s: string)
    ensures NoDecimalDigit(s) ==> ParseSigned(TrimStart(s)) == NaN
  {
    if NoDecimalDigit(s) {
      var t := TrimStart(s);
      NoDigitSuffix(s, |s| - |t|);
      if |t| > 0 && (t[0] == '-' || t[0] == '+') {
        NoDigitSuffix(t, 1);
        NoDigitMagnitude(t[1..]);
      } else {
        NoDigitMagnitude(t);
      }
    }
  }

  /** Dropping a prefix keeps a text free of decimal digits. */
  lemma NoDigitSuffix(s: string, k: nat)
    requires NoDecimalDigit(s) && k <= |s|
    ensures NoDecimalDigit(s[k..])
  {
    forall i | 0 <= i < |s| - k ensures !('0' <= s[k..][i] <= '9') {
      assert s[k..][i] == s[k + i];
    }
  }

  /** Without a decimal digit there is neither a `0x` prefix nor a leading digit. */
  lemma NoDigitMagnitude(u: string)
    requires NoDecimalDigit(u)
    ensures ParseMagnitude(u) == NaN
  {
    if u != [] {
      assert DigitValue(u[0]) >= 10;
    }
  }

  /** The character of a decimal digit. */
  function DigitChar(d: nat): (c: char)
    requires d < 10
    ensures '0' <= c <= '9' && DigitValue(c) == d
  {
    ('0' as int + d) as char
  }

  /** `n.toString()` for a natural number. */
  function Decimal(n: nat): (r: string)
    ensures |r| >= 1
    ensures forall i :: 0 <= i < |r| ==> '0' <= r[i] <= '9'
    ensures r[0] == '0' ==> n == 0
  {
    if n < 10 then [DigitChar(n)] else Decimal(n / 10) + [DigitChar(n % 10)]
  }

  /** Decimal text of any integer: a minus sign before negative ones. */
  function IntText(i: int): string
  {
    if i < 0 then "-" + Decimal(-i) else Decimal(i)
  }

  /** Reading the decimal digits of `n` gives `n` back. */
  lemma {:induction false} DecimalValue(n: nat)
    ensures DigitsValue(Decimal(n), 10) == n
    decreases n
  {
    var r := Decimal(n);
    if n >= 10 {
      DecimalValue(n / 10);
      assert r[..|r| - 1] == Decimal(n / 10);
    }
  }

  /** A string of decimal digits is its own longest decimal run. */
  lemma {:induction false} DecimalRun(d: string)
    requires forall i :: 0 <= i < |d| ==> '0' <= d[i] <= '9'
    ensures DigitRun(d, 10) == d
    decreases |d|
  {
    if d != [] {
      DecimalRun(d[1..]);
      assert [d[0]] + d[1..] == d;
    }
  }

  /** What `parseInt` does with the digits of `n` once whitespace and sign are gone. */
  lemma ParseDigits(n: nat)
    ensures var d := Decimal(n);
      !(|d| >= 2 && d[0] == '0') && DigitRun(d, 10) == d && DigitsValue(d, 10) == n
      && d[0] != '-' && d[0] != '+' && !IsWhitespace(d[0])
  {
    DecimalRun(Decimal(n));
    DecimalValue(n);
  }

  /** Decimal digits without a leading zero read as their value. */
  lemma MagnitudeDigits(d: string, n: nat)
    requires |d| >= 1 && !(|d| >= 2 && d[0] == '0') && DigitRun(d, 10) == d && DigitsValue(d, 10) == n
    ensures ParseMagnitude(d) == Int(n)
  {
  }

  /** `parseInt` on text without leading whitespace, sign or `0x`, made of
      decimal digits only, reads their value. */
  lemma ParseUnsigned(d: string, n: nat)
    requires |d| >= 1 && !IsWhitespace(d[0]) && d[0] != '-' && d[0] != '+'
    requires !(|d| >= 2 && d[0] == '0') && DigitRun(d, 10) == d && DigitsValue(d, 10) == n
    ensures ParseInt(d) == Int(n)
  {
    TrimStartKeeps(d);
    MagnitudeDigits(d, n);
  }

  /** A minus sign negates the magnitude that follows it. */
  lemma SignedNegative(u: string, n: nat)
    requires ParseMagnitude(u) == Int(n)
    ensures ParseSigned("-" + u) == Int(0 - n)
  {
    assert ("-" + u)[1..] == u;
  }

  /** The same after a minus sign. */
  lemma ParseNegative(d: string, n: nat)
    requires |d| >= 1 && !(|d| >= 2 && d[0] == '0') && DigitRun(d, 10) == d && DigitsValue(d, 10) == n
    ensures ParseInt("-" + d) == Int(0 - n)
  {
    TrimStartKeeps("-" + d);
    MagnitudeDigits(d, n);
    SignedNegative(d, n);
  }

  /** `parseInt` reads back the decimal text of every integer. */
  lemma ParseIntText(i: int)
    ensures ParseInt(IntText(i)) == Int(i)
  {
    var n: nat := if i < 0 then -i else i;
    ParseDigits(n);
    if i < 0 {
      ParseNegative(Decimal(n), n);
    } else {
      ParseUnsigned(Decimal(n), n);
    }
  }
}
