/**
 * Decimal digit strings: `Number(match[1])` on the digits of a `#[n]` token,
 * and the `${n}` interpolation of a count in the message footer.
 */
module Decimal {

  predicate IsDigit(c: char) { '0' <= c <= '9' }

  predicate AllDigits(d: string) { forall k :: 0 <= k < |d| ==> IsDigit(d[k]) }

  function DigitValue(c: char): (v: nat)
    requires IsDigit(c)
    ensures v < 10
  {
    (c as int - '0' as int) as nat
  }

  function DigitChar(v: nat): (c: char)
    requires v < 10
    ensures IsDigit(c) && DigitValue(c) == v
  {
    (v + '0' as int) as char
  }

  /** The value of a digit string read in base ten (`Number` on a digit string). */
  function DecimalValue(d: string): (v: nat)
    requires AllDigits(d)
    ensures v == 0 <==> forall k :: 0 <= k < |d| ==> d[k] == '0'
  {
    if d == [] then 0
    else
      var init := d[..|d| - 1];
      assert forall k :: 0 <= k < |init| ==> init[k] == d[k];
      DecimalValue(init) * 10 + DigitValue(d[|d| - 1])
  }

  /**
   * The canonical digit strings: exactly one digit, or a nonzero digit followed
   * by at least one more digit. This is the group `([0-9]|[1-9][0-9]+)` of the
   * token pattern, so "0", "7" and "10" are canonical and "01" is not.
   */
  predicate IsCanonical(d: string)
  {
    (|d| == 1 && IsDigit(d[0]))
    || (|d| >= 2 && '1' <= d[0] <= '9' && AllDigits(d))
  }

  /** The decimal rendering of `n` as JavaScript's template literal writes it. */
  function NatToString(n: nat): (s: string)
    ensures IsCanonical(s)
    ensures (s[0] == '0') <==> n == 0
  {
    if n < 10 then [DigitChar(n)]
    else NatToString(n / 10) + [DigitChar(n % 10)]
  }

  /** Reading back a rendered number gives the number. */
  lemma {:induction false} DecimalValueOfNatToString(n: nat)
    ensures DecimalValue(NatToString(n)) == n
  {
    var s := NatToString(n);
    if n >= 10 {
      DecimalValueOfNatToString(n / 10);
      assert s[..|s| - 1] == NatToString(n / 10);
    }
  }

  lemma {:induction false} DecimalValuePositive(d: string)
    requires |d| >= 1 && AllDigits(d) && d[0] != '0'
    ensures DecimalValue(d) >= 1
  {
    if |d| > 1 {
      DecimalValuePositive(d[..|d| - 1]);
    }
  }

  /**
   * Rendering the value of a canonical digit string gives the string back, so
   * canonical digit strings and natural numbers correspond one to one.
   */
  lemma {:induction false} NatToStringOfDecimalValue(d: string)
    requires IsCanonical(d)
    ensures NatToString(DecimalValue(d)) == d
  {
    if |d| >= 2 {
      var p := d[..|d| - 1];
      assert p[0] == d[0];
      DecimalValuePositive(p);
      NatToStringOfDecimalValue(p);
      var v := DecimalValue(d);
      assert v / 10 == DecimalValue(p);
      assert v % 10 == DigitValue(d[|d| - 1]);
      assert DigitChar(DigitValue(d[|d| - 1])) == d[|d| - 1];
      assert d == p + [d[|d| - 1]];
    }
  }
}
