/** Number literals as Python's `int(str)` and `float(str)` read them
    (restricted to an optional sign and ASCII digits), the 64-bit integer
    range of a pandas `int64` column, and truncation toward zero. */
module Numbers {
  import opened Wrappers
  import opened Text

  const MinInt64: int := -0x8000_0000_0000_0000
  const MaxInt64: int := 0x7fff_ffff_ffff_ffff

  predicate InInt64(n: int) {
    MinInt64 <= n <= MaxInt64
  }

  predicate IsSign(ch: char) {
    ch == '-' || ch == '+'
  }

  /** Splits an optional leading sign off a literal: (negative?, rest). */
  function SplitSign(s: string): (bool, string) {
    if |s| > 0 && IsSign(s[0]) then (s[0] == '-', s[1..]) else (false, s)
  }

  /** An integer literal: an optional sign followed by at least one digit. */
  function ParseInteger(s: string): Option<int> {
    var (negative, body) := SplitSign(s);
    if |body| > 0 && AllDigits(body) then
      Some(if negative then -(DigitsValue(body) as int) else DigitsValue(body))
    else None
  }

  /** A decimal literal: an optional sign, then digits with an optional
      fractional part, where at least one digit is present on either side
      of the point ("12", "12.", ".5", "-0.25"). */
  function ParseDecimal(s: string): Option<real> {
    var (negative, body) := SplitSign(s);
    var magnitude: Option<real> :=
      match FirstIndex(body, '.')
      case None =>
        if |body| > 0 && AllDigits(body) then Some(DigitsValue(body) as real) else None
      case Some(k) =>
        var whole, fraction := body[..k], body[k + 1..];
        if |whole| + |fraction| > 0 && AllDigits(whole) && AllDigits(fraction) then
          Some(DigitsValue(whole) as real + DigitsValue(fraction) as real / Pow10(|fraction|) as real)
        else None;
    match magnitude
    case None => None
    case Some(m) => Some(if negative then -m else m)
  }

  /** The canonical rendering of an integer. */
  function FormatInteger(n: int): string {
    if n < 0 then "-" + FormatNat(-n) else FormatNat(n)
  }

  /** Every integer's canonical rendering is read back as that integer. */
  lemma IntegerRoundTrip(n: int)
    ensures ParseInteger(FormatInteger(n)) == Some(n)
  {
    if n < 0 {
      var s := FormatInteger(n);
      assert s[1..] == FormatNat(-n);
      assert !IsSign(FormatNat(-n)[0]);
    } else {
      assert !IsSign(FormatNat(n)[0]);
    }
  }

  /** A literal `int` accepts is read by `float` as the same number. */
  lemma DecimalExtendsInteger(s: string, n: int)
    requires ParseInteger(s) == Some(n)
    ensures ParseDecimal(s) == Some(n as real)
  {
  }

  /** Conversion of a float to an integer, which drops the fraction
      (rounds toward zero), as numpy's float-to-int cast does. */
  function Trunc(x: real): (n: int)
    ensures 0.0 <= x ==> 0 <= n && n as real <= x < n as real + 1.0
    ensures x < 0.0 ==> n <= 0 && n as real - 1.0 < x <= n as real
  {
    if 0.0 <= x then x.Floor else -((-x).Floor)
  }
}
