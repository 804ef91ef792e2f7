/**
 * Decimal text for record ids, in both directions the router uses: the
 * template literal `${student.id}` that builds a `Location` header, and
 * `Number(req.params.id)` that reads an id back out of a request path.
 */
module Decimal {
  import opened Wrappers

  predicate IsDigit(c: char) {
    '0' <= c <= '9'
  }

  predicate AllDigits(s: string) {
    forall i :: 0 <= i < |s| ==> IsDigit(s[i])
  }

  function DigitValue(c: char): nat
    requires IsDigit(c)
  {
    (c as int) - ('0' as int)
  }

  function DigitChar(d: nat): (c: char)
    requires d < 10
    ensures IsDigit(c) && DigitValue(c) == d
  {
    (('0' as int) + d) as char
  }

  /** The value of a run of decimal digits, most significant first. */
  function DigitsValue(s: string): nat
    requires AllDigits(s)
    decreases |s|
  {
    if s == [] then 0 else 10 * DigitsValue(s[..|s| - 1]) + DigitValue(s[|s| - 1])
  }

  /** The decimal spelling of a natural number: no sign, no leading zero. */
  function NatToDecimal(n: nat): (s: string)
    ensures s != [] && AllDigits(s)
    ensures n > 0 ==> s[0] != '0'
    ensures DigitsValue(s) == n
    decreases n
  {
    if n < 10 then
      [DigitChar(n)]
    else
      var prefix := NatToDecimal(n / 10);
      var s := prefix + [DigitChar(n % 10)];
      assert s[..|s| - 1] == prefix;
      s
  }

  function Abs(n: int): nat {
    if n < 0 then -n else n
  }

  /** The digits of a numeric literal: everything after a leading sign, if there is one. */
  function Unsigned(s: string): string {
    if s != [] && (s[0] == '+' || s[0] == '-') then s[1..] else s
  }

  /** A run of `k` zero digits. */
  function Zeros(k: nat): (z: string)
    ensures |z| == k && forall i :: 0 <= i < k ==> z[i] == '0'
  {
    seq(k, _ => '0')
  }

  /**
   * JavaScript's string conversion of an integer, as in `${n}`: a minus sign
   * exactly for a negative number, followed by the magnitude's canonical digits.
   */
  function IntToDecimal(n: int): (s: string)
    ensures s != [] && (s[0] == '-' <==> n < 0) && s[0] != '+'
    ensures Unsigned(s) == NatToDecimal(Abs(n))
  {
    if n < 0 then "-" + NatToDecimal(-n) else NatToDecimal(n)
  }

  /** The strings `Number` reads as an integer in this model: an optional sign, then digits. */
  predicate IsIntegerLiteral(s: string) {
    Unsigned(s) != [] && AllDigits(Unsigned(s))
  }

  /** A leading zero does not change the value of a run of digits. */
  lemma {:induction false} LeadingZeroValue(t: string)
    requires AllDigits(t)
    ensures AllDigits("0" + t) && DigitsValue("0" + t) == DigitsValue(t)
    decreases |t|
  {
    var d := "0" + t;
    assert AllDigits(d) by {
      forall i | 0 <= i < |d|
        ensures IsDigit(d[i])
      {
        if i > 0 {
          assert d[i] == t[i - 1];
        }
      }
    }
    if t != [] {
      var p := t[..|t| - 1];
      assert d[..|d| - 1] == "0" + p;
      LeadingZeroValue(p);
    }
  }

  /** Digits that start with a non-zero digit have a positive value. */
  lemma {:induction false} NonZeroLeadPositive(d: string)
    requires d != [] && AllDigits(d) && d[0] != '0'
    ensures DigitsValue(d) > 0
    decreases |d|
  {
    if |d| > 1 {
      NonZeroLeadPositive(d[..|d| - 1]);
    }
  }

  /** Digits without a superfluous leading zero are the canonical spelling of their value. */
  lemma {:induction false} CanonicalDigits(d: string)
    requires d != [] && AllDigits(d) && (d[0] != '0' || |d| == 1)
    ensures d == NatToDecimal(DigitsValue(d))
    decreases |d|
  {
    var c := d[|d| - 1];
    if |d| == 1 {
      assert DigitsValue(d) == DigitValue(c) by {
        assert d[..0] == [];
      }
      assert DigitChar(DigitValue(c)) == c;
    } else {
      var p := d[..|d| - 1];
      NonZeroLeadPositive(p);
      CanonicalDigits(p);
      var n := DigitsValue(d);
      assert n / 10 == DigitsValue(p) && n % 10 == DigitValue(c);
      assert DigitChar(DigitValue(c)) == c;
      assert d == p + [c];
    }
  }

  /** Any run of digits is some zeros followed by the canonical spelling of its value. */
  lemma {:induction false} DigitsSpelling(d: string)
    requires d != [] && AllDigits(d)
    ensures var c := NatToDecimal(DigitsValue(d));
      |c| <= |d| && d == Zeros(|d| - |c|) + c
    decreases |d|
  {
    if |d| > 1 && d[0] == '0' {
      var t := d[1..];
      assert d == "0" + t;
      LeadingZeroValue(t);
      DigitsSpelling(t);
      var c := NatToDecimal(DigitsValue(t));
      assert Zeros(|d| - |c|) == "0" + Zeros(|t| - |c|);
    } else {
      CanonicalDigits(d);
      assert Zeros(0) == [];
    }
  }

  /**
   * `Number(s)` for a path segment. An integer literal gives its value:
   * its digits are some leading zeros followed by the canonical spelling of
   * the value's magnitude, and a minus sign makes it non-positive. Anything
   * else gives None, standing for NaN and for the fractional numbers no
   * record id can equal.
   */
  function ParseNumber(s: string): (r: Option<int>)
    ensures r.Some? <==> IsIntegerLiteral(s)
    ensures r.Some? && s[0] == '-' ==> r.value <= 0
    ensures r.Some? && s[0] != '-' ==> r.value >= 0
    ensures r.Some? ==>
      var digits := Unsigned(s);
      var canonical := NatToDecimal(Abs(r.value));
      |canonical| <= |digits| && digits == Zeros(|digits| - |canonical|) + canonical
  {
    var digits := Unsigned(s);
    if digits != [] && AllDigits(digits) then
      DigitsSpelling(digits);
      var magnitude: int := DigitsValue(digits);
      Some(if s[0] == '-' then -magnitude else magnitude)
    else
      None
  }

  /** Reading back the decimal spelling of an integer gives the integer. */
  lemma ParseIntToDecimal(n: int)
    ensures ParseNumber(IntToDecimal(n)) == Some(n)
  {
    if n < 0 {
      var s := IntToDecimal(n);
      assert s[1..] == NatToDecimal(-n);
    } else {
      assert IntToDecimal(n)[0] != '-';
    }
  }

  /** Distinct integers have distinct spellings, so a `Location` suffix names one record. */
  lemma IntToDecimalInjective(m: int, n: int)
    ensures IntToDecimal(m) == IntToDecimal(n) ==> m == n
  {
    ParseIntToDecimal(m);
    ParseIntToDecimal(n);
  }
}
