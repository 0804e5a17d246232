/** Kotlin's `Long` and its decimal text, as produced by string templates
    (`"$postTime"`, which calls `Long.toString()`), together with a parser
    that serves as its inverse. */
module Decimal {
  import opened Wrappers

  const LONG_MIN: int := -0x8000_0000_0000_0000
  const LONG_MAX: int := 0x7fff_ffff_ffff_ffff

  /** A signed 64-bit integer. */
  type Long = x: int | LONG_MIN <= x <= LONG_MAX

  predicate IsDigit(c: char) { '0' <= c <= '9' }

  predicate AllDigits(s: string) { forall i :: 0 <= i < |s| ==> IsDigit(s[i]) }

  function DigitChar(d: nat): (c: char)
    requires d < 10
    ensures IsDigit(c) && DigitValue(c) == d
  {
    (d + '0' as int) as char
  }

  function DigitValue(c: char): (d: nat)
    requires IsDigit(c)
    ensures d < 10
  {
    c as int - '0' as int
  }

  /** The shortest decimal text of `n`: one digit for 0, otherwise no leading zero. */
  function NatToDecimal(n: nat): (s: string)
    ensures |s| >= 1 && AllDigits(s)
    ensures s[0] == '0' <==> n == 0
  {
    if n < 10 then [DigitChar(n)] else NatToDecimal(n / 10) + [DigitChar(n % 10)]
  }

  /** `Long.toString()`: a leading '-' for negative values, then the magnitude. */
  function LongToDecimal(n: Long): (s: string)
  {
    if n < 0 then "-" + NatToDecimal(-(n as int)) else NatToDecimal(n)
  }

  /** The value of a string of digits, most significant first. */
  function DecimalValue(s: string): (v: nat)
    requires AllDigits(s)
  {
    if s == [] then 0 else DecimalValue(s[..|s| - 1]) * 10 + DigitValue(s[|s| - 1])
  }

  /** Reads back a decimal integer: an optional '-', then one or more digits,
      within the range of a `Long`. */
  function ParseLong(s: string): (r: Option<Long>)
  {
    var negative := |s| > 0 && s[0] == '-';
    var digits := if negative then s[1..] else s;
    if |digits| == 0 || !AllDigits(digits) then None
    else
      var magnitude: int := DecimalValue(digits);
      var v := if negative then -magnitude else magnitude;
      if LONG_MIN <= v <= LONG_MAX then Some(v) else None
  }

  lemma {:induction false} DecimalValueOfNatToDecimal(n: nat)
    ensures DecimalValue(NatToDecimal(n)) == n
  {
    var s := NatToDecimal(n);
    if n < 10 {
      assert s[..|s| - 1] == [];
    } else {
      assert s[..|s| - 1] == NatToDecimal(n / 10);
      DecimalValueOfNatToDecimal(n / 10);
    }
  }

  /** The decimal text of a `Long` reads back as the same `Long`. */
  lemma LongRoundTrip(n: Long)
    ensures ParseLong(LongToDecimal(n)) == Some(n)
  {
    var s := LongToDecimal(n);
    var m: nat := if n < 0 then -(n as int) else n;
    var digits := NatToDecimal(m);
    DecimalValueOfNatToDecimal(m);
    if n < 0 {
      assert s[0] == '-' && s[1..] == digits;
    } else {
      assert s == digits && s[0] != '-';
    }
  }

  /** The decimal text is canonical: an optional '-', then digits without padding,
      so distinct values never share a text. */
  lemma LongToDecimalShape(n: Long)
    ensures var s := LongToDecimal(n);
      |s| >= 1 &&
      (n < 0 <==> s[0] == '-') &&
      (forall i :: 0 <= i < |s| ==> IsDigit(s[i]) || (i == 0 && s[i] == '-')) &&
      (var digits := if n < 0 then s[1..] else s;
       |digits| >= 1 && AllDigits(digits) && (digits[0] == '0' <==> n == 0))
  {
    var s := LongToDecimal(n);
    if n < 0 {
      assert s[1..] == NatToDecimal(-(n as int));
    }
  }

  lemma LongToDecimalInjective(a: Long, b: Long)
    requires LongToDecimal(a) == LongToDecimal(b)
    ensures a == b
  {
    LongRoundTrip(a);
    LongRoundTrip(b);
  }

  function Pow10(k: nat): (p: nat)
    ensures p >= 1
  {
    if k == 0 then 1 else 10 * Pow10(k - 1)
  }

  lemma DivMod10(m: nat, r: nat)
    requires r < 10
    ensures (10 * m + r) / 10 == m && (10 * m + r) % 10 == r
  {
  }

  /** One more low digit: if `m` is written as `D` followed by the text of
      `t / 10`, then `10 * m + t % 10` is written as `D` followed by the text of `t`. */
  lemma AppendLowDigit(m: nat, t: nat, lead: string)
    requires t >= 10 && m >= 1 && NatToDecimal(m) == lead + NatToDecimal(t / 10)
    ensures NatToDecimal(10 * m + t % 10) == lead + NatToDecimal(t)
  {
    var r := t % 10;
    DivMod10(m, r);
    assert NatToDecimal(10 * m + r) == NatToDecimal(m) + [DigitChar(r)];
    assert NatToDecimal(t) == NatToDecimal(t / 10) + [DigitChar(r)];
  }

  lemma ScaleSplit(d: nat, p: nat, t: nat)
    ensures d * (10 * p) + t == 10 * (d * p + t / 10) + t % 10
  {
  }

  lemma PrependDigitBase(d: nat, t: nat)
    requires 1 <= d < 10 && t < 10
    ensures NatToDecimal(d * Pow10(|NatToDecimal(t)|) + t) == [DigitChar(d)] + NatToDecimal(t)
  {
    assert Pow10(1) == 10;
    DivMod10(d, t);
    assert NatToDecimal(10 * d + t) == NatToDecimal(d) + [DigitChar(t)];
  }

  /** Writing a nonzero digit `d` in front of the decimal text of `t` gives the
      decimal text of `d * 10^k + t`, where `k` is the length of that text. */
  lemma {:induction false} PrependDigit(d: nat, t: nat)
    requires 1 <= d < 10
    ensures NatToDecimal(d * Pow10(|NatToDecimal(t)|) + t) == [DigitChar(d)] + NatToDecimal(t)
  {
    var k := |NatToDecimal(t)|;
    if t < 10 {
      PrependDigitBase(d, t);
    } else {
      assert NatToDecimal(t) == NatToDecimal(t / 10) + [DigitChar(t % 10)];
      var p := Pow10(k - 1);
      assert Pow10(k) == 10 * p;
      PrependDigit(d, t / 10);
      var m := d * p + t / 10;
      AppendLowDigit(m, t, [DigitChar(d)]);
      ScaleSplit(d, p, t);
    }
  }
}
