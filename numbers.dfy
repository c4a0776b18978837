/** Python's `float(text)` restricted to plain decimal notation, as an exact
    partial parse into `real`. `None` stands for the ValueError Python raises. */
module Numbers {
  import opened Wrappers
  import Text

  predicate IsDigit(c: char) { '0' <= c <= '9' }

  predicate AllDigits(s: string) { forall i :: 0 <= i < |s| ==> IsDigit(s[i]) }

  /** The value of a string of decimal digits; the empty string is 0. */
  function DigitsValue(ds: string): nat
    requires AllDigits(ds)
  {
    if ds == [] then 0 else 10 * DigitsValue(ds[..|ds| - 1]) + ((ds[|ds| - 1] as int) - ('0' as int))
  }

  function Pow10(n: nat): (r: nat)
    ensures r >= 1
  {
    if n == 0 then 1 else 10 * Pow10(n - 1)
  }

  /** Digits with at most one '.', and at least one digit: "12", "12.5",
      ".5" and "12." are numbers, "." and "" are not. */
  function ParseUnsigned(s: string): Option<real>
  {
    var parts := Text.Split(s, '.');
    if |parts| > 2 then None
    else
      var whole := parts[0];
      var frac := if |parts| == 2 then parts[1] else "";
      if |whole| + |frac| == 0 || !AllDigits(whole) || !AllDigits(frac) then None
      else Some(DigitsValue(whole) as real + FractionValue(frac))
  }

  /** The value of the digits after the decimal point. */
  function FractionValue(frac: string): real
    requires AllDigits(frac)
  {
    if frac == [] then 0.0 else DigitsValue(frac) as real / Pow10(|frac|) as real
  }

  /** `float(s)`: surrounding whitespace is ignored, an optional sign, then an
      unsigned decimal. */
  function ParseFloat(s: string): (r: Option<real>)
    ensures Text.Strip(s) == "" ==> r == None
  {
    var t := Text.Strip(s);
    if |t| > 0 && (t[0] == '+' || t[0] == '-') then
      match ParseUnsigned(t[1..])
      case None => None
      case Some(v) => Some(if t[0] == '-' then -v else v)
    else
      assert t == "" ==> Text.Split(t, '.') == [""];
      ParseUnsigned(t)
  }

  /** A thousands separator makes `float` fail: no string holding a comma
      parses. */
  lemma ParseRejectsComma(s: string)
    requires ',' in s
    ensures ParseFloat(s) == None
  {
    Text.StripKeeps(s, ',');
    var t := Text.Strip(s);
    if |t| > 0 && (t[0] == '+' || t[0] == '-') {
      assert t == [t[0]] + t[1..];
      UnsignedRejectsComma(t[1..]);
    } else {
      UnsignedRejectsComma(t);
    }
  }

  /** The digits after the point never make a value negative. */
  lemma FractionNonNegative(frac: string)
    requires AllDigits(frac)
    ensures FractionValue(frac) >= 0.0
  {
    if frac != [] {
      var d := DigitsValue(frac) as real;
      var p := Pow10(|frac|) as real;
      assert d >= 0.0 && p >= 1.0;
      assert d / p >= 0.0;
    }
  }

  /** An unsigned decimal is never negative. */
  lemma UnsignedNonNegative(u: string)
    ensures ParseUnsigned(u).Some? ==> ParseUnsigned(u).value >= 0.0
  {
    var parts := Text.Split(u, '.');
    if |parts| <= 2 {
      var frac := if |parts| == 2 then parts[1] else "";
      if AllDigits(frac) {
        FractionNonNegative(frac);
      }
    }
  }

  /** Only a leading minus sign, after the surrounding whitespace is
      stripped, makes `float` return a negative value. */
  lemma NegativeHasMinus(s: string)
    requires ParseFloat(s).Some? && ParseFloat(s).value < 0.0
    ensures |Text.Strip(s)| > 0 && Text.Strip(s)[0] == '-'
  {
    var t := Text.Strip(s);
    if |t| > 0 && (t[0] == '+' || t[0] == '-') {
      UnsignedNonNegative(t[1..]);
    } else {
      UnsignedNonNegative(t);
    }
  }

  /** The empty string is not a number. */
  lemma ParseEmpty()
    ensures ParseFloat("") == None
  {
    assert Text.Split("", '.') == [""];
  }

  lemma UnsignedRejectsComma(u: string)
    requires ',' in u
    ensures ParseUnsigned(u) == None
  {
    var parts := Text.Split(u, '.');
    Text.JoinSplit(u, '.');
    if |parts| == 1 {
      assert ',' in parts[0];
    } else if |parts| == 2 {
      assert u == parts[0] + ['.'] + parts[1];
      assert ',' in parts[0] || ',' in parts[1];
    }
  }

  function Digit(d: nat): (c: char)
    requires d < 10
    ensures IsDigit(c)
  {
    ('0' as int + d) as char
  }

  /** The decimal notation of a natural number, as Python's `str(n)` writes it. */
  function NatString(n: nat): (s: string)
    ensures |s| >= 1 && AllDigits(s)
  {
    if n < 10 then [Digit(n)] else NatString(n / 10) + [Digit(n % 10)]
  }

  lemma {:induction false} DigitsValueNatString(n: nat)
    ensures DigitsValue(NatString(n)) == n
  {
    if n >= 10 {
      DigitsValueNatString(n / 10);
      var s := NatString(n);
      assert s[..|s| - 1] == NatString(n / 10);
    }
  }

  /** Round trip: `float(str(n)) == n` for every natural number. */
  lemma ParseNatString(n: nat)
    ensures ParseFloat(NatString(n)) == Some(n as real)
  {
    ParseDigits(NatString(n));
    DigitsValueNatString(n);
  }

  /** A non-empty string of digits parses to its digit value. */
  lemma ParseDigits(s: string)
    requires |s| >= 1 && AllDigits(s)
    ensures ParseFloat(s) == Some(DigitsValue(s) as real)
  {
    assert IsDigit(s[0]) && IsDigit(s[|s| - 1]);
    assert Text.TrimStart(s) == s;
    assert Text.TrimEnd(s) == s;
    assert s[0] != '+' && s[0] != '-';
    assert '.' !in s;
    Text.SplitNoSeparator(s, '.');
    UnsignedDigits(s);
  }

  /** A non-empty digit string parses to its digit value. */
  lemma UnsignedDigits(s: string)
    requires |s| >= 1 && AllDigits(s) && Text.Split(s, '.') == [s]
    ensures ParseUnsigned(s) == Some(DigitsValue(s) as real)
  {
    var parts := Text.Split(s, '.');
    assert |parts| == 1 && parts[0] == s;
    assert FractionValue("") == 0.0;
  }
}
