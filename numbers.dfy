/** The JavaScript number built-ins behind the sales forms: `parseFloat`
    (section 19.2.4 of ECMA-262) and `Math.round` (section 21.3.2.28), on exact
    reals rather than double-precision floats. NaN is `None`. */
module Numbers {
  import opened Backend
  import opened Strings

  /** 10 to the power `e`, for any integer exponent. */
  function Scale(e: int): (r: real)
    ensures r > 0.0
  {
    if e >= 0 then Pow10(e) as real else 1.0 / (Pow10(-e) as real)
  }

  /** The value of an exponent part (`e` or `E`, an optional sign, digits) at the
      start of `s`; 0 when `s` does not start with a complete one, because
      `parseFloat` then stops before the `e`. */
  function ExponentPart(s: string): int {
    if |s| >= 2 && (s[0] == 'e' || s[0] == 'E') then
      var digits := if s[1] == '+' || s[1] == '-' then s[2..] else s[1..];
      var n := DigitRun(digits);
      if n == 0 then 0
      else if s[1] == '-' then -(DigitsValue(digits[..n]) as int)
      else DigitsValue(digits[..n])
    else 0
  }

  /** The digits of a decimal literal with its point removed. */
  function Mantissa(whole: string, fraction: string): (r: real)
    requires AllDigits(whole) && AllDigits(fraction)
    ensures r >= 0.0
  {
    assert AllDigits(whole + fraction) by {
      forall i | 0 <= i < |whole + fraction|
        ensures IsDigit((whole + fraction)[i])
      {
        if i >= |whole| {
          assert (whole + fraction)[i] == fraction[i - |whole|];
        }
      }
    }
    DigitsValue(whole + fraction) as real
  }

  /** `parseFloat`: after leading white space, an optional sign and the longest
      decimal literal that starts the rest; NaN when there is none. */
  function ParseFloat(s: string): (r: Option<real>)
    ensures r.Some? ==> exists i :: 0 <= i < |s| && IsDigit(s[i])
  {
    var t := s[LeadingWhiteSpace(s)..];
    var body := if t != [] && (t[0] == '+' || t[0] == '-') then t[1..] else t;
    match DecimalPrefix(body)
    case None => None
    case Some(magnitude) =>
      assert exists i :: 0 <= i < |s| && IsDigit(s[i]) by {
        var k :| 0 <= k < |body| && IsDigit(body[k]);
        assert s[|s| - |body| + k] == body[k];
      }
      Some(if t != [] && t[0] == '-' then -magnitude else magnitude)
  }

  /** The value of the longest decimal literal (digits, an optional point and
      digits, an optional exponent) that starts `body`; none when no digit
      comes before or right after the point. */
  function DecimalPrefix(body: string): (r: Option<real>)
    ensures r.Some? ==> exists i :: 0 <= i < |body| && IsDigit(body[i])
  {
    var i := DigitRun(body);
    var point := i < |body| && body[i] == '.';
    var f := if point then DigitRun(body[i + 1..]) else 0;
    if i == 0 && f == 0 then None
    else
      assert IsDigit(body[if i > 0 then 0 else i + 1]);
      var fraction := if point then body[i + 1..i + 1 + f] else [];
      var rest := body[i + (if point then 1 + f else 0)..];
      Some(Mantissa(body[..i], fraction) * Scale(ExponentPart(rest) - f))
  }

  /** `Math.round`: the integer nearest to `x`, halves rounded up. */
  function Round(x: real): (r: int)
    ensures r as real - 0.5 <= x < r as real + 0.5
  {
    (x + 0.5).Floor
  }

  /** Rounding an integer gives it back. */
  lemma RoundInteger(n: int)
    ensures Round(n as real) == n
  {
  }

  /** A run of digits is read whole. */
  lemma {:induction false} DigitRunOfDigits(s: string)
    requires AllDigits(s)
    ensures DigitRun(s) == |s|
  {
    if s != [] {
      DigitRunOfDigits(s[1..]);
    }
  }

  /** A run of digits alone is read as its value. */
  lemma DecimalPrefixOfDigits(digits: string)
    requires digits != [] && AllDigits(digits)
    ensures DecimalPrefix(digits) == Some(DigitsValue(digits) as real)
  {
    DigitRunOfDigits(digits);
    assert digits[..|digits|] + [] == digits;
    assert digits[|digits|..] == [];
    assert ExponentPart([]) == 0;
    assert Scale(0 - 0) == 1.0 by {
      assert Pow10(0) == 1;
    }
  }

  /** `parseFloat` reads the decimal digits of a natural number as that number. */
  lemma ParseFloatOfNatString(n: nat)
    ensures ParseFloat(NatToString(n)) == Some(n as real)
  {
    var s := NatToString(n);
    assert IsDigit(s[0]);
    assert LeadingWhiteSpace(s) == 0;
    assert s[0..] == s;
    DecimalPrefixOfDigits(s);
  }

  /** `parseFloat` undoes `toString` on integers. */
  lemma ParseFloatOfIntString(n: int)
    ensures ParseFloat(IntToString(n)) == Some(n as real)
  {
    if n < 0 {
      var digits := NatToString(-n);
      var s := IntToString(n);
      assert s == "-" + digits && s[1..] == digits;
      assert LeadingWhiteSpace(s) == 0;
      assert s[0..] == s;
      DecimalPrefixOfDigits(digits);
    } else {
      ParseFloatOfNatString(n);
    }
  }

  /** `parseFloat` reads a decimal `i.f` (digits, a point, digits) as the
      digits with the point removed, scaled down by a power of 10 for each
      fraction digit. */
  lemma ParseFloatOfDecimal(whole: string, fraction: string)
    requires whole != [] && AllDigits(whole) && AllDigits(fraction)
    ensures ParseFloat(whole + "." + fraction) == Some(Mantissa(whole, fraction) * Scale(-|fraction|))
  {
    var s := whole + "." + fraction;
    assert s[0] == whole[0] && IsDigit(s[0]);
    assert LeadingWhiteSpace(s) == 0;
    assert s[0..] == s;
    assert ParseFloat(s) == DecimalPrefix(s);
    DecimalPrefixOfDecimal(whole, fraction);
  }

  /** The literal `i.f` is read whole, with no exponent. */
  lemma DecimalPrefixOfDecimal(whole: string, fraction: string)
    requires whole != [] && AllDigits(whole) && AllDigits(fraction)
    ensures DecimalPrefix(whole + "." + fraction) == Some(Mantissa(whole, fraction) * Scale(-|fraction|))
  {
    var s := whole + "." + fraction;
    var i := DigitRun(s);
    assert s[|whole|] == '.';
    assert i == |whole|;
    assert s[..i] == whole;
    assert s[i + 1..] == fraction;
    DigitRunOfDigits(fraction);
    assert s[i + 1..i + 1 + |fraction|] == fraction;
    assert s[i + (1 + |fraction|)..] == [];
    assert ExponentPart([]) == 0;
  }
}
