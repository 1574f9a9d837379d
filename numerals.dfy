/**
 * Decimal digits as Python handles them in the episode extractor: `int()`
 * applied to a run of ASCII digits, and the `{n:02d}` format that renders a
 * non-negative number with at least two digits.
 */
module Numerals {

  predicate IsDigit(c: char) {
    '0' <= c <= '9'
  }

  predicate AllDigits(s: string) {
    forall k :: 0 <= k < |s| ==> IsDigit(s[k])
  }

  function DigitValue(c: char): (d: nat)
    requires IsDigit(c)
    ensures d < 10
  {
    c as int - '0' as int
  }

  function DigitChar(d: nat): (c: char)
    requires d < 10
    ensures IsDigit(c) && DigitValue(c) == d
  {
    ('0' as int + d) as char
  }

  /** `int(ds)` for a non-empty string of ASCII digits; leading zeros add nothing. */
  function DecimalValue(ds: string): nat
    requires AllDigits(ds)
  {
    if ds == [] then 0 else 10 * DecimalValue(ds[..|ds| - 1]) + DigitValue(ds[|ds| - 1])
  }

  /** `str(n)`: the shortest decimal spelling of `n`. */
  function Decimal(n: nat): (r: string)
    ensures AllDigits(r) && |r| >= 1
    ensures (|r| == 1) == (n < 10)
    ensures |r| > 1 ==> r[0] != '0'
    ensures DecimalValue(r) == n
  {
    if n < 10 then [DigitChar(n)]
    else
      var prefix := Decimal(n / 10);
      var r := prefix + [DigitChar(n % 10)];
      assert r[..|r| - 1] == prefix;
      r
  }

  /** A zero in front of a digit string does not change its value under `int()`. */
  lemma {:induction false} LeadingZeroIgnored(ds: string)
    requires AllDigits(ds)
    ensures AllDigits(['0'] + ds) && DecimalValue(['0'] + ds) == DecimalValue(ds)
  {
    var z := ['0'] + ds;
    if ds != [] {
      LeadingZeroIgnored(ds[..|ds| - 1]);
      assert z[..|z| - 1] == ['0'] + ds[..|ds| - 1];
    }
  }

  /** A digit string without leading zeros is the decimal spelling of its own value. */
  lemma {:induction false} DecimalOfValue(ds: string)
    requires AllDigits(ds) && |ds| >= 1 && (|ds| > 1 ==> ds[0] != '0')
    ensures Decimal(DecimalValue(ds)) == ds
  {
    var last := ds[|ds| - 1];
    var d := DigitValue(last);
    assert DigitChar(d) == last;
    if |ds| > 1 {
      var prefix := ds[..|ds| - 1];
      DecimalOfValue(prefix);
      var p := DecimalValue(prefix);
      assert p > 0 by {
        assert prefix[0] == ds[0] != '0';
        assert Decimal(0) == "0";
      }
      var v := DecimalValue(ds);
      assert v == 10 * p + d;
      assert v / 10 == p && v % 10 == d;
      assert ds == prefix + [last];
    }
  }

  /**
   * A digit string without leading zeros, read with `int()` and padded with
   * `{:02d}`, comes back as itself, with a zero in front when it is one digit.
   */
  lemma PaddedValue(ds: string)
    requires AllDigits(ds) && |ds| >= 1 && (|ds| > 1 ==> ds[0] != '0')
    ensures Pad2(DecimalValue(ds)) == if |ds| == 1 then "0" + ds else ds
  {
    DecimalOfValue(ds);
  }

  /**
   * `f"{n:02d}"`: the decimal spelling of `n`, with one zero in front when it
   * has a single digit. It never truncates and reads back as `n`.
   */
  function Pad2(n: nat): (r: string)
    ensures AllDigits(r) && DecimalValue(r) == n
    ensures |r| == if n < 10 then 2 else |Decimal(n)|
    ensures n >= 10 ==> r == Decimal(n)
  {
    var d := Decimal(n);
    if |d| < 2 then LeadingZeroIgnored(d); "0" + d else d
  }
}
