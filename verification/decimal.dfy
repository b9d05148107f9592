/** Decimal text of integers, as JavaScript's number-to-string conversion
    writes it inside a template literal: an optional `-`, then the digits
    without leading zeros. */
module Decimal {
  import opened Wrappers

  function DigitChar(d: nat): (c: char)
    requires d < 10
    ensures '0' <= c <= '9'
  {
    (('0' as int) + d) as char
  }

  function DigitValue(c: char): (d: nat)
    requires '0' <= c <= '9'
    ensures d < 10 && DigitChar(d) == c
  {
    (c as int) - ('0' as int)
  }

  predicate IsDigits(s: string) {
    forall k | 0 <= k < |s| :: '0' <= s[k] <= '9'
  }

  function NatToString(n: nat): (r: string)
    ensures |r| > 0 && IsDigits(r)
    ensures r[0] == '0' <==> n == 0
    ensures |r| > 1 ==> r[0] != '0'
  {
    if n < 10 then [DigitChar(n)] else NatToString(n / 10) + [DigitChar(n % 10)]
  }

  /** The way JavaScript writes an integer: a `-` for negative values
      only, then digits with no leading zero (so no `-0` and no `007`). */
  predicate IsCanonical(s: string) {
    if |s| > 0 && s[0] == '-' then |s| > 1 && IsDigits(s[1..]) && s[1] != '0'
    else |s| > 0 && IsDigits(s) && (|s| > 1 ==> s[0] != '0')
  }

  /** `${i}` for an integer-valued number `i` (below 10^21). */
  function IntToString(i: int): (r: string)
    ensures IsCanonical(r)
    ensures r[0] == '-' <==> i < 0
  {
    if i < 0 then "-" + NatToString(-i) else NatToString(i)
  }

  /** The value of a run of decimal digits. */
  function DigitsValue(s: string): nat
    requires IsDigits(s)
  {
    if |s| == 0 then 0 else DigitsValue(s[..|s| - 1]) * 10 + DigitValue(s[|s| - 1])
  }

  /** Reads back an optionally signed run of decimal digits. */
  function ParseInt(s: string): Option<int> {
    if |s| > 0 && s[0] == '-' then
      if |s| > 1 && IsDigits(s[1..]) then Some(0 - DigitsValue(s[1..]) as int) else None
    else if |s| > 0 && IsDigits(s) then Some(DigitsValue(s))
    else None
  }

  lemma {:induction false} NatRoundTrip(n: nat)
    ensures DigitsValue(NatToString(n)) == n
  {
    if n >= 10 {
      var s := NatToString(n);
      NatRoundTrip(n / 10);
      assert s[..|s| - 1] == NatToString(n / 10);
    }
  }

  lemma ParseDigits(s: string)
    requires |s| > 0 && IsDigits(s)
    ensures ParseInt(s) == Some(DigitsValue(s) as int)
  {
    assert s[0] != '-';
  }

  lemma ParseNegated(s: string)
    requires |s| > 0 && IsDigits(s)
    ensures ParseInt("-" + s) == Some(0 - DigitsValue(s) as int)
  {
    assert ("-" + s)[1..] == s;
  }

  /** Reading the text back yields the integer: distinct integers are
      written differently. */
  lemma IntRoundTrip(i: int)
    ensures ParseInt(IntToString(i)) == Some(i)
  {
    if i < 0 {
      NatRoundTrip(-i);
      ParseNegated(NatToString(-i));
    } else {
      NatRoundTrip(i);
      ParseDigits(NatToString(i));
    }
  }

  /** A digit run without a leading zero denotes a value with as many
      digits. */
  lemma {:induction false} LeadingDigitBound(s: string)
    requires |s| > 1 && IsDigits(s) && s[0] != '0'
    ensures DigitsValue(s) >= 10
  {
    var t := s[..|s| - 1];
    if |t| > 1 {
      assert t[0] == s[0];
      LeadingDigitBound(t);
    } else {
      assert t == [s[0]];
      assert DigitsValue(t) == DigitsValue(t[..0]) * 10 + DigitValue(t[0]);
    }
  }

  /** Writing out the value of a digit run without a leading zero gives
      back that run. */
  lemma {:induction false} DigitsRoundTrip(s: string)
    requires |s| > 0 && IsDigits(s) && (|s| > 1 ==> s[0] != '0')
    ensures NatToString(DigitsValue(s)) == s
  {
    var t := s[..|s| - 1];
    var n := DigitsValue(s);
    if |s| == 1 {
      assert t == [];
      assert DigitsValue(t) == 0;
      assert n == DigitsValue(t) * 10 + DigitValue(s[0]);
      assert s == [s[0]];
    } else {
      LeadingDigitBound(s);
      assert n / 10 == DigitsValue(t) && n % 10 == DigitValue(s[|s| - 1]);
      if |t| > 1 {
        assert t[0] == s[0];
      }
      DigitsRoundTrip(t);
      assert s == t + [s[|s| - 1]];
    }
  }

  /** The other half of the round trip: canonical text is exactly the
      text `IntToString` writes for the value it denotes. */
  lemma CanonicalRoundTrip(s: string)
    requires IsCanonical(s)
    ensures ParseInt(s).Some? && IntToString(ParseInt(s).value) == s
  {
    if s[0] == '-' {
      var d := s[1..];
      DigitsRoundTrip(d);
      LeadingNonZero(d);
      assert s == "-" + d;
    } else {
      DigitsRoundTrip(s);
      ParseDigits(s);
    }
  }

  lemma LeadingNonZero(s: string)
    requires |s| > 0 && IsDigits(s) && s[0] != '0'
    ensures DigitsValue(s) > 0
  {
    if |s| > 1 {
      LeadingDigitBound(s);
    } else {
      assert DigitsValue(s) == DigitsValue(s[..0]) * 10 + DigitValue(s[0]);
    }
  }

  lemma IntToStringInjective(i: int, j: int)
    requires IntToString(i) == IntToString(j)
    ensures i == j
  {
    IntRoundTrip(i);
    IntRoundTrip(j);
  }
}
