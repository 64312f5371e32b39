/** `parseFloat` and the decimal rendering of non-negative integers, over exact reals.
    `None` stands for `NaN`. */
module JsNumber {
  import opened Wrappers
  import opened JsString

  predicate IsDigit(c: char) {
    '0' <= c <= '9'
  }

  predicate AllDigits(s: string) {
    forall i :: 0 <= i < |s| ==> IsDigit(s[i])
  }

  function DigitValue(c: char): (d: nat)
    requires IsDigit(c)
    ensures d <= 9
  {
    c as int - '0' as int
  }

  function DigitChar(d: nat): (c: char)
    requires d <= 9
    ensures IsDigit(c) && DigitValue(c) == d
  {
    ('0' as int + d) as char
  }

  /** The value of a digit string read most significant digit first; `""` reads as 0. */
  function DigitsValue(s: string): nat
    requires AllDigits(s)
  {
    if |s| == 0 then 0 else DigitsValue(s[..|s| - 1]) * 10 + DigitValue(s[|s| - 1])
  }

  function Pow10(n: nat): (p: nat)
    ensures p >= 1
  {
    if n == 0 then 1 else 10 * Pow10(n - 1)
  }

  /** The length of the longest all-digit prefix of `s`. */
  function DigitRun(s: string): (n: nat)
    ensures n <= |s| && AllDigits(s[..n])
    ensures n == |s| || !IsDigit(s[n])
  {
    if |s| > 0 && IsDigit(s[0]) then
      var n := 1 + DigitRun(s[1..]);
      assert s[..n] == [s[0]] + s[1..][..n - 1];
      n
    else 0
  }

  /** `String(n)` for a non-negative integer: decimal digits with no leading zero, reading
      back as `n`. */
  function NatToString(n: nat): (r: string)
    ensures |r| >= 1 && AllDigits(r)
    ensures r[0] != '0' || |r| == 1
    ensures DigitsValue(r) == n
  {
    if n < 10 then [DigitChar(n)]
    else
      var p := NatToString(n / 10);
      var r := p + [DigitChar(n % 10)];
      assert r[..|r| - 1] == p;
      r
  }

  /** The text after an optional leading sign. */
  function Unsigned(t: string): string {
    if |t| > 0 && (t[0] == '+' || t[0] == '-') then t[1..] else t
  }

  /** `u` begins like a StrUnsignedDecimalLiteral other than `Infinity`: a digit, or a dot
      followed by a digit. */
  predicate StartsNumeric(u: string) {
    || (|u| > 0 && IsDigit(u[0]))
    || (|u| > 1 && u[0] == '.' && IsDigit(u[1]))
  }

  /** The exponent of an ExponentPart at the start of `s` (`e`/`E`, an optional sign, at least
      one digit), or `None` when `s` does not start with one. */
  function ExponentAt(s: string): Option<int> {
    if |s| > 0 && (s[0] == 'e' || s[0] == 'E') then
      var p := if |s| > 1 && (s[1] == '+' || s[1] == '-') then 2 else 1;
      var d := DigitRun(s[p..]);
      if d == 0 then None
      else
        var e: int := DigitsValue(s[p..][..d]);
        Some(if p == 2 && s[1] == '-' then -e else e)
    else None
  }

  /** `m` times ten to the power `e`. */
  function Scale(m: real, e: int): (r: real)
    ensures m >= 0.0 ==> r >= 0.0
  {
    var p := Pow10(if e >= 0 then e else -e) as real;
    assert p >= 1.0;
    if e >= 0 then m * p else m / p
  }

  /** The value of the literal with integer digits `whole`, fraction digits `frac` and
      exponent `e`; a literal with neither fraction nor exponent is worth its integer part. */
  function DecimalValue(whole: string, frac: string, e: int): (r: real)
    requires AllDigits(whole) && AllDigits(frac)
    ensures r >= 0.0
    ensures |frac| == 0 && e == 0 ==> r == DigitsValue(whole) as real
  {
    var p := Pow10(|frac|) as real;
    assert p >= 1.0;
    Scale(DigitsValue(whole) as real + DigitsValue(frac) as real / p, e)
  }

  /** The value of the StrUnsignedDecimalLiteral at the start of `u` (digits, an optional
      fraction, an optional exponent); there is one exactly when `u` starts with a digit or
      with a dot and a digit, and it is never negative. */
  function ParseUnsigned(u: string): (r: Option<real>)
    ensures r.Some? <==> StartsNumeric(u)
    ensures r.Some? ==> r.value >= 0.0
  {
    var a := DigitRun(u);
    var hasDot := a < |u| && u[a] == '.';
    var b := if hasDot then DigitRun(u[a + 1..]) else 0;
    assert a + b == 0 <==> !StartsNumeric(u) by {
      if a == 0 && hasDot && |u| > 1 {
        assert u[a + 1..][0] == u[1];
      }
    }
    if a + b == 0 then None
    else
      var frac := if hasDot then u[a + 1..][..b] else "";
      var q := if hasDot then a + 1 + b else a;
      Some(DecimalValue(u[..a], frac, ExponentAt(u[q..]).GetOr(0)))
  }

  /** `parseFloat(s)`: skip leading whitespace, read an optional sign and the longest decimal
      literal prefix, ignore the rest. The result is a number exactly when, after the
      whitespace and the sign, the text starts with a digit or with a dot and a digit, and it
      is negative only after a minus sign. */
  function ParseFloat(s: string): (r: Option<real>)
    ensures r.Some? <==> StartsNumeric(Unsigned(TrimStart(s)))
    ensures r.Some? && r.value < 0.0 ==> TrimStart(s)[0] == '-'
  {
    ParseSigned(TrimStart(s))
  }

  /** The number at the start of `t`, which begins with an optional sign. */
  function ParseSigned(t: string): (r: Option<real>)
    ensures r.Some? <==> StartsNumeric(Unsigned(t))
    ensures r.Some? && r.value < 0.0 ==> t[0] == '-'
  {
    match ParseUnsigned(Unsigned(t))
    case None => None
    case Some(m) => Some(if |t| > 0 && t[0] == '-' then -m else m)
  }

  /** A plain digit string reads as its value. */
  lemma ParseUnsignedOfDigits(d: string)
    requires |d| > 0 && AllDigits(d)
    ensures ParseUnsigned(d) == Some(DigitsValue(d) as real)
  {
    DigitRunOfDigits(d);
    assert d[..|d|] == d;
    assert ExponentAt(d[|d|..]) == None;
  }

  /** `parseFloat` of text that starts with neither whitespace nor a sign is the value of
      its unsigned literal. */
  lemma ParseFloatOfUnsigned(u: string)
    requires |u| > 0 && !IsWhite(u[0]) && u[0] != '+' && u[0] != '-'
    ensures ParseFloat(u) == ParseUnsigned(u)
  {
    assert TrimStart(u) == u;
    assert Unsigned(u) == u;
  }

  /** A minus sign negates the value of the literal after it. */
  lemma ParseFloatOfMinus(u: string, v: real)
    requires ParseUnsigned(u) == Some(v)
    ensures ParseFloat("-" + u) == Some(-v)
  {
    var m := "-" + u;
    assert TrimStart(m) == m;
    assert Unsigned(m) == u;
  }

  /** A plain digit string parses to its value. */
  lemma ParseFloatOfDigits(d: string)
    requires |d| > 0 && AllDigits(d)
    ensures ParseFloat(d) == Some(DigitsValue(d) as real)
  {
    assert IsDigit(d[0]);
    assert !IsWhite(d[0]) && d[0] != '+' && d[0] != '-';
    ParseUnsignedOfDigits(d);
    ParseFloatOfUnsigned(d);
  }

  lemma {:induction false} DigitRunOfDigits(d: string)
    requires AllDigits(d)
    ensures DigitRun(d) == |d|
  {
    if |d| > 0 {
      DigitRunOfDigits(d[1..]);
    }
  }

  /** Rendering a count and parsing it back is the identity. */
  lemma ParseFloatOfNatToString(n: nat)
    ensures ParseFloat(NatToString(n)) == Some(n as real)
  {
    ParseFloatOfDigits(NatToString(n));
  }

  /** Leading whitespace never changes what `parseFloat` reads. */
  lemma ParseFloatSkipsWhite(w: string, s: string)
    requires AllWhite(w)
    ensures ParseFloat(w + s) == ParseFloat(s)
  {
    TrimStartSkipsWhite(w, s);
    ParseFloatOfSameStart(w + s, s);
  }

  lemma ParseFloatOfSameStart(a: string, b: string)
    requires TrimStart(a) == TrimStart(b)
    ensures ParseFloat(a) == ParseFloat(b)
  {
  }
}
