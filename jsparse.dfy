/**
 * JavaScript's `parseInt(s, 10)` on strings, with `None` standing for `NaN`,
 * and the decimal rendering of an integer (`String(n)`), its inverse on the
 * strings it produces.
 */
module JsParse {
  import opened Wrappers
  import opened Text

  predicate IsDigit(c: char) {
    '0' <= c <= '9'
  }

  function DigitValue(c: char): nat
    requires IsDigit(c)
  {
    c as int - '0' as int
  }

  function DigitChar(d: nat): (c: char)
    requires d < 10
    ensures IsDigit(c) && DigitValue(c) == d
  {
    ('0' as int + d) as char
  }

  predicate AllDigits(s: string) {
    forall i :: 0 <= i < |s| ==> IsDigit(s[i])
  }

  /** The value of a decimal numeral, most significant digit first. */
  function DecimalValue(s: string): nat
    requires AllDigits(s)
  {
    if s == [] then 0 else DecimalValue(s[..|s| - 1]) * 10 + DigitValue(s[|s| - 1])
  }

  /** The longest prefix of `s` made of decimal digits. */
  function DigitPrefix(s: string): (r: string)
    ensures |r| <= |s| && r == s[..|r|] && AllDigits(r)
    ensures |r| == |s| || !IsDigit(s[|r|])
  {
    if s != [] && IsDigit(s[0]) then [s[0]] + DigitPrefix(s[1..]) else []
  }

  /**
   * `parseInt(s, 10)`: skip leading whitespace, read an optional sign, then the
   * longest run of decimal digits; no digit at all is `NaN` (here `None`).
   * JavaScript numbers are doubles; this model keeps the exact integer.
   * A string without a digit is `NaN`, and only a leading minus makes the
   * result negative.
   */
  function ParseInt(s: string): (r: Option<int>)
    ensures r.Some? ==> exists i :: 0 <= i < |s| && IsDigit(s[i])
    ensures r.Some? && r.value < 0 ==> TrimStart(s) != [] && TrimStart(s)[0] == '-'
  {
    var t := TrimStart(s);
    var negative := t != [] && t[0] == '-';
    var u := if t != [] && (t[0] == '-' || t[0] == '+') then t[1..] else t;
    var d := DigitPrefix(u);
    var v: int := if d == [] then 0 else DecimalValue(d);
    if d == [] then None
    else
      assert u == s[|s| - |u|..] && d[0] == u[0] == s[|s| - |u|];
      if negative then Some(-v) else Some(v)
  }

  /** Decimal digits of a natural number, without leading zeros. */
  function Digits(n: nat): (r: string)
    ensures r != [] && AllDigits(r)
  {
    if n < 10 then [DigitChar(n)] else Digits(n / 10) + [DigitChar(n % 10)]
  }

  /** `String(n)` for an integer `n`. */
  function FormatInt(n: int): string
  {
    if n < 0 then "-" + Digits(-n) else Digits(n)
  }

  lemma {:induction false} DigitsValue(n: nat)
    ensures DecimalValue(Digits(n)) == n
  {
    if n >= 10 {
      DigitsValue(n / 10);
      var s := Digits(n);
      assert s[..|s| - 1] == Digits(n / 10);
    }
  }

  lemma {:induction false} DigitPrefixOfDigits(d: string, rest: string)
    requires AllDigits(d)
    requires rest == [] || !IsDigit(rest[0])
    ensures DigitPrefix(d + rest) == d
  {
    if d != [] {
      DigitPrefixOfDigits(d[1..], rest);
      assert d + rest == [d[0]] + (d[1..] + rest);
    }
  }

  /** A digit string followed by text that does not start with a digit parses to its decimal value. */
  lemma ParseDigits(d: string, rest: string)
    requires d != [] && AllDigits(d)
    requires rest == [] || !IsDigit(rest[0])
    ensures ParseInt(d + rest) == Some(DecimalValue(d))
  {
    assert (d + rest)[0] == d[0];
    TrimStartKeeps(d + rest);
    DigitPrefixOfDigits(d, rest);
  }

  /** A nonempty digit string parses to its decimal value. */
  lemma ParseAllDigits(d: string)
    requires d != [] && AllDigits(d)
    ensures ParseInt(d) == Some(DecimalValue(d))
  {
    ParseDigits(d, []);
    assert d + [] == d;
  }

  /** Round trip: `parseInt(String(n), 10) == n` for every integer. */
  lemma ParseFormat(n: int)
    ensures ParseInt(FormatInt(n)) == Some(n)
  {
    if n < 0 {
      var m: nat := -n;
      assert FormatInt(n) == "-" + Digits(m);
      ParseNegative(m);
    } else {
      assert FormatInt(n) == Digits(n);
      ParseNonNegative(n);
    }
  }

  lemma ParseNonNegative(m: nat)
    ensures ParseInt(Digits(m)) == Some(m as int)
  {
    DigitsValue(m);
    ParseAllDigits(Digits(m));
  }

  lemma ParseNegative(m: nat)
    requires m > 0
    ensures ParseInt("-" + Digits(m)) == Some(-(m as int))
  {
    var s := "-" + Digits(m);
    DigitsValue(m);
    assert s[0] == '-';
    TrimStartKeeps(s);
    assert s[1..] == Digits(m);
    DigitPrefixOfDigits(Digits(m), []);
    assert Digits(m) + [] == Digits(m);
  }
}
