/** Decimal text <-> 64-bit Java `long`: `Long.parseLong(String)` (radix 10) and
    `Long.toString(long)`, the conversion string concatenation applies to a `Long`. */
module JavaLong {
  import opened Wrappers

  const MinLong: int := -0x8000_0000_0000_0000
  const MaxLong: int := 0x7FFF_FFFF_FFFF_FFFF

  predicate IsDigit(c: char) {
    '0' <= c <= '9'
  }

  predicate AllDigits(s: string) {
    forall i :: 0 <= i < |s| ==> IsDigit(s[i])
  }

  function DigitValue(c: char): (d: nat)
    requires IsDigit(c)
    ensures d < 10
  {
    c as int - '0' as int
  }

  function DigitChar(d: nat): (c: char)
    requires d < 10
    ensures IsDigit(c) && DigitValue(c) == d
  {
    ('0' as int + d) as char
  }

  /** The value of a run of decimal digits, most significant first. */
  function DigitsValue(s: string): nat
    requires AllDigits(s)
    decreases |s|
  {
    if s == [] then 0 else DigitsValue(s[..|s| - 1]) * 10 + DigitValue(s[|s| - 1])
  }

  /** The shape `Long.parseLong` accepts: an optional sign followed by at least one digit. */
  predicate IsDecimal(s: string) {
    && |s| > 0
    && var digits := if s[0] == '-' || s[0] == '+' then s[1..] else s;
    && |digits| > 0
    && AllDigits(digits)
  }

  /** `Long.parseLong(s)`: None where Java throws NumberFormatException, that is for
      anything but an optional sign and digits, and for a value outside the long range. */
  function ParseLong(s: string): (r: Option<int>)
    ensures r.Some? ==> IsDecimal(s) && MinLong <= r.value <= MaxLong
    ensures !IsDecimal(s) ==> r == None
  {
    if |s| == 0 then None
    else
      var signed := s[0] == '-' || s[0] == '+';
      var digits := if signed then s[1..] else s;
      if |digits| == 0 || !AllDigits(digits) then None
      else
        var magnitude: int := DigitsValue(digits);
        var v := if s[0] == '-' then -magnitude else magnitude;
        if MinLong <= v <= MaxLong then Some(v) else None
  }

  /** The decimal digits of `n`, without leading zeros. */
  function NatDigits(n: nat): (s: string)
    ensures |s| > 0 && AllDigits(s)
    decreases n
  {
    if n < 10 then [DigitChar(n)] else NatDigits(n / 10) + [DigitChar(n % 10)]
  }

  /** `Long.toString(n)`: a minus sign for negatives, then the digits of |n|. */
  function FormatLong(n: int): string {
    if n < 0 then "-" + NatDigits(-n) else NatDigits(n)
  }

  lemma {:induction false} NatDigitsValue(n: nat)
    ensures DigitsValue(NatDigits(n)) == n
    decreases n
  {
    if n >= 10 {
      var s := NatDigits(n);
      assert s[..|s| - 1] == NatDigits(n / 10);
      NatDigitsValue(n / 10);
    }
  }

  /** Parsing the decimal text of any integer gives it back exactly when it is a long;
      outside the long range `Long.parseLong` throws. */
  lemma ParseFormatLong(n: int)
    ensures ParseLong(FormatLong(n)) == if MinLong <= n <= MaxLong then Some(n) else None
  {
    var s := FormatLong(n);
    if n < 0 {
      NatDigitsValue(-n);
      assert s[1..] == NatDigits(-n);
    } else {
      NatDigitsValue(n);
    }
  }

  /** A leading zero digit does not change the value of a digit run. */
  lemma {:induction false} DigitsValueLeadingZero(d: string)
    requires AllDigits(d)
    ensures AllDigits("0" + d) && DigitsValue("0" + d) == DigitsValue(d)
    decreases |d|
  {
    var z := "0" + d;
    assert AllDigits(z) by {
      forall i | 0 <= i < |z|
        ensures IsDigit(z[i])
      {
        if i > 0 {
          assert z[i] == d[i - 1];
        }
      }
    }
    if d != [] {
      assert z[..|z| - 1] == "0" + d[..|d| - 1];
      DigitsValueLeadingZero(d[..|d| - 1]);
    }
  }

  /** Leading zeros are accepted and ignored, after any sign:
      `Long.parseLong("007")` is 7 and `Long.parseLong("-007")` is -7. */
  lemma ParseLongLeadingZero(sign: string, d: string)
    requires sign == "" || sign == "-" || sign == "+"
    requires |d| > 0 && AllDigits(d)
    ensures ParseLong(sign + "0" + d) == ParseLong(sign + d)
  {
    DigitsValueLeadingZero(d);
    var s, t := sign + "0" + d, sign + d;
    if sign == "" {
      assert s == "0" + d && t == d;
    } else {
      assert s[0] == t[0] == sign[0];
      assert s[1..] == "0" + d && t[1..] == d;
    }
  }

  /** A leading plus sign is accepted and ignored: `Long.parseLong("+7")` is 7. */
  lemma ParseLongPlus(s: string)
    requires s == [] || (s[0] != '-' && s[0] != '+')
    ensures ParseLong("+" + s) == ParseLong(s)
  {
    assert ("+" + s)[1..] == s;
  }

  /** Negative zero is zero. */
  lemma ParseLongMinusZero()
    ensures ParseLong("-0") == Some(0)
  {
    assert "-0"[1..] == "0";
    assert DigitsValue("0") == 0 by {
      assert "0"[..0] == [];
    }
  }

  /** Only negative numbers print with a leading minus sign. */
  lemma FormatLongSign(n: int)
    ensures |FormatLong(n)| > 0 && (FormatLong(n)[0] == '-' <==> n < 0)
  {
    if n >= 0 {
      assert IsDigit(NatDigits(n)[0]);
    }
  }

  /** Distinct longs print differently. */
  lemma FormatLongInjective(m: int, n: int)
    requires FormatLong(m) == FormatLong(n)
    ensures m == n
  {
    FormatLongSign(m);
    FormatLongSign(n);
    var s := FormatLong(m);
    if m < 0 && n < 0 {
      assert NatDigits(-m) == s[1..] == NatDigits(-n);
      NatDigitsValue(-m);
      NatDigitsValue(-n);
    } else if m >= 0 && n >= 0 {
      NatDigitsValue(m);
      NatDigitsValue(n);
    }
  }
}
