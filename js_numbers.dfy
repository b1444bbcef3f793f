/** The JavaScript number conversions the client applies to typed and fetched text:
    `Number(s)`, `parseInt(s)`, `String(n)` for an integer and `Math.round(x)`.
    Numbers are exact reals here; IEEE-754 doubles are not modelled. */
module JsNumbers {
  import opened Common
  import opened Strings

  predicate IsDigit(c: char) { '0' <= c <= '9' }

  predicate AllDigits(s: string) { forall i | 0 <= i < |s| :: IsDigit(s[i]) }

  function DigitValue(c: char): nat
    requires IsDigit(c)
  {
    c as int - '0' as int
  }

  function DigitChar(d: nat): (c: char)
    requires d < 10
    ensures IsDigit(c) && DigitValue(c) == d
  {
    ('0' as int + d) as char
  }

  /** The value of a string of decimal digits, read most significant digit first. */
  function DigitsValue(s: string): nat
    requires AllDigits(s)
  {
    if s == [] then 0 else DigitsValue(s[..|s| - 1]) * 10 + DigitValue(s[|s| - 1])
  }

  /** `String(n)` for a natural number: its decimal digits without leading zeros. */
  function NatToString(n: nat): string
  {
    if n < 10 then [DigitChar(n)] else NatToString(n / 10) + [DigitChar(n % 10)]
  }

  /** `String(n)` is a non-empty digit string that reads back as `n`. */
  lemma {:induction false} NatToStringRoundTrip(n: nat)
    ensures NatToString(n) != [] && AllDigits(NatToString(n))
    ensures DigitsValue(NatToString(n)) == n
  {
    if n >= 10 {
      NatToStringRoundTrip(n / 10);
      var s := NatToString(n);
      assert s[..|s| - 1] == NatToString(n / 10);
    }
  }

  /** `String(n)` for an integer. */
  function IntToString(n: int): string
  {
    if n < 0 then "-" + NatToString(-n) else NatToString(n)
  }

  /** The value of the digits after a decimal point, read least significant digit first:
      ".d1d2..." is (d1 + ".d2...") / 10, a proper fraction. */
  function FractionValue(s: string): (r: real)
    requires AllDigits(s)
    ensures 0.0 <= r < 1.0
  {
    if s == [] then 0.0 else (DigitValue(s[0]) as real + FractionValue(s[1..])) / 10.0
  }

  /** An unsigned decimal literal: digits with at most one '.', and at least one digit
      ("5", "5.", ".5", "05.50"); anything else is NaN. */
  function UnsignedDecimal(s: string): Option<real>
  {
    var d := IndexOf(s, '.');
    var whole := s[..d];
    var frac := if d < |s| then s[d + 1..] else [];
    if AllDigits(whole) && AllDigits(frac) && |whole| + |frac| > 0 then
      Some(DigitsValue(whole) as real + FractionValue(frac))
    else
      None
  }

  /** `Number(s)` on the decimal subset: the empty string is 0, an optional sign is
      followed by an unsigned decimal literal; None stands for NaN. */
  function JsNumber(s: string): Option<real>
  {
    if s == [] then Some(0.0)
    else if s[0] == '-' then
      match UnsignedDecimal(s[1..])
      case Some(x) => Some(-x)
      case None => None
    else if s[0] == '+' then UnsignedDecimal(s[1..])
    else UnsignedDecimal(s)
  }

  /** `Number(s) || 0`: NaN (and 0) become 0. */
  function NumberOrZero(s: string): real
  {
    JsNumber(s).GetOr(0.0)
  }

  /** An unsigned literal is never negative, and its floor is the value of its digits
      before the point. */
  lemma UnsignedDecimalFloor(s: string)
    requires UnsignedDecimal(s).Some?
    ensures UnsignedDecimal(s).value >= 0.0
    ensures UnsignedDecimal(s).value.Floor == DigitsValue(s[..IndexOf(s, '.')])
  {
    var d := IndexOf(s, '.');
    var frac := if d < |s| then s[d + 1..] else [];
    FloorOfWholePlusFraction(DigitsValue(s[..d]), FractionValue(frac));
  }

  lemma FloorOfWholePlusFraction(w: int, f: real)
    requires 0.0 <= f < 1.0
    ensures (w as real + f).Floor == w
  {
  }

  /** `Number(String(n)) == n` for every integer. */
  lemma IntToStringRoundTrip(n: int)
    ensures JsNumber(IntToString(n)) == Some(n as real)
  {
    var m: nat := if n < 0 then -n else n;
    var s := NatToString(m);
    NatToStringRoundTrip(m);
    assert forall i | 0 <= i < |s| :: s[i] != '.';
    assert s[..|s|] == s;
    assert UnsignedDecimal(s) == Some(m as real);
    if n < 0 {
      assert IntToString(n)[1..] == s;
    } else {
      assert s[0] != '-' && s[0] != '+' by { assert IsDigit(s[0]); }
    }
  }

  /** The number of leading decimal digits of `s`. */
  function DigitPrefixLength(s: string): (n: nat)
    ensures n <= |s| && AllDigits(s[..n])
    ensures n < |s| ==> !IsDigit(s[n])
  {
    if s == [] || !IsDigit(s[0]) then 0
    else
      var n := 1 + DigitPrefixLength(s[1..]);
      assert s[..n] == [s[0]] + s[1..][..n - 1];
      n
  }

  /** `parseInt(s, 10)`: an optional sign, then the longest run of digits; no digits is NaN.
      Leading white space, which parseInt skips, is not modelled. */
  function JsParseInt(s: string): Option<int>
  {
    var negative := |s| > 0 && s[0] == '-';
    var body := if |s| > 0 && (s[0] == '-' || s[0] == '+') then s[1..] else s;
    var n := DigitPrefixLength(body);
    if n == 0 then None
    else
      var v: int := DigitsValue(body[..n]);
      if negative then Some(-v) else Some(v)
  }

  /** `parseInt(String(n)) == n` for every integer. */
  lemma IntToStringParsesBack(n: int)
    ensures JsParseInt(IntToString(n)) == Some(n)
  {
    var m: nat := if n < 0 then -n else n;
    var s := NatToString(m);
    NatToStringRoundTrip(m);
    assert forall i | 0 <= i < |s| :: IsDigit(s[i]);
    assert s[..|s|] == s;
    if n < 0 {
      assert IntToString(n)[1..] == s;
    } else {
      assert s[0] != '-' && s[0] != '+' by { assert IsDigit(s[0]); }
    }
  }

  /** `Math.round(x)`: the nearest integer, halves rounded up. */
  function Round(x: real): (r: int)
    ensures r as real - 0.5 <= x < r as real + 0.5
  {
    (x + 0.5).Floor
  }

  /** `xs.length > 0 ? Math.round(xs.reduce((a, b) => a + b, 0) / xs.length) : 0`, the rounded
      mean both analytics hooks report. */
  function MeanRounded(xs: seq<real>): (r: int)
    ensures |xs| == 0 ==> r == 0
    ensures |xs| > 0 ==> r as real - 0.5 <= Sum(xs) / |xs| as real < r as real + 0.5
  {
    if |xs| > 0 then Round(Sum(xs) / |xs| as real) else 0
  }

  /** The rounded mean of values between 0 and 100 is between 0 and 100. */
  lemma MeanRoundedBounds(xs: seq<real>)
    requires forall i | 0 <= i < |xs| :: 0.0 <= xs[i] <= 100.0
    ensures 0 <= MeanRounded(xs) <= 100
  {
    if |xs| > 0 {
      SumBounds(xs, 0.0, 100.0);
      var n := |xs| as real;
      var m := Sum(xs) / n;
      assert m * n == Sum(xs);
      assert 0.0 <= m <= 100.0;
    }
  }
}
