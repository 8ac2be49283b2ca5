/** Decimal rendering of integers, as Go's `%d` verb, `strconv.Itoa` and Rust's
    `Display` for `i32` produce it, together with the digit-string reading
    (`strconv.Atoi`, nom's digit loop) that undoes it. */
module Decimal {

  predicate IsDigit(c: char) {
    '0' <= c <= '9'
  }

  predicate AllDigits(s: string) {
    forall i :: 0 <= i < |s| ==> IsDigit(s[i])
  }

  function DigitChar(d: nat): (c: char)
    requires d < 10
    ensures IsDigit(c)
  {
    ['0', '1', '2', '3', '4', '5', '6', '7', '8', '9'][d]
  }

  function DigitValue(c: char): (d: nat)
    requires IsDigit(c)
    ensures d < 10
  {
    (c as int - '0' as int) as nat
  }

  lemma DigitRoundTrip(d: nat)
    requires d < 10
    ensures DigitValue(DigitChar(d)) == d
  {
  }

  /** The value of a string of decimal digits, read most significant first. */
  function DigitsValue(s: string): nat
    requires AllDigits(s)
  {
    if |s| == 0 then 0 else DigitsValue(s[..|s| - 1]) * 10 + DigitValue(s[|s| - 1])
  }

  /** The shortest decimal spelling of `n`: digits only, never empty, no leading zero. */
  function NatToString(n: nat): (s: string)
    ensures |s| >= 1 && AllDigits(s)
    ensures |s| > 1 ==> s[0] != '0'
    ensures n < 10 <==> |s| == 1
  {
    if n < 10 then [DigitChar(n)] else NatToString(n / 10) + [DigitChar(n % 10)]
  }

  /** Go's `%d` / Rust's `{}` for a signed integer: a minus sign, then the digits of the magnitude. */
  function IntToString(i: int): (s: string)
    ensures |s| >= 1
    ensures i >= 0 ==> s == NatToString(i)
    ensures i < 0 ==> s == "-" + NatToString(-i)
  {
    if i < 0 then "-" + NatToString(-i) else NatToString(i)
  }

  /** A signed decimal spelling: an optional leading '-' and then at least one digit. */
  predicate Signed(s: string) {
    && |s| >= 1
    && (s[0] == '-' ==> |s| >= 2 && AllDigits(s[1..]))
    && (s[0] != '-' ==> AllDigits(s))
  }

  lemma IntToStringSigned(i: int)
    ensures Signed(IntToString(i))
  {
    var s := IntToString(i);
    if i < 0 {
      assert s[1..] == NatToString(-i);
    }
  }

  /** Reading back a signed decimal spelling: an optional leading '-' and then digits. */
  function ParseInt(s: string): (r: int)
    requires |s| >= 1
    requires s[0] == '-' ==> |s| >= 2 && AllDigits(s[1..])
    requires s[0] != '-' ==> AllDigits(s)
  {
    if s[0] == '-' then -(DigitsValue(s[1..]) as int) else DigitsValue(s)
  }

  lemma {:induction false} NatToStringRoundTrip(n: nat)
    ensures DigitsValue(NatToString(n)) == n
  {
    var s := NatToString(n);
    if n < 10 {
      assert s[..0] == [];
      DigitRoundTrip(n);
    } else {
      NatToStringRoundTrip(n / 10);
      assert s[..|s| - 1] == NatToString(n / 10);
      DigitRoundTrip(n % 10);
    }
  }

  /** Every integer's decimal spelling reads back as that integer. */
  lemma {:induction false} IntToStringRoundTrip(i: int)
    ensures ParseInt(IntToString(i)) == i
  {
    if i < 0 {
      NegativeRoundTrip(i);
    } else {
      NonNegativeRoundTrip(i);
    }
  }

  lemma {:induction false} NegativeRoundTrip(i: int)
    requires i < 0
    ensures ParseInt(IntToString(i)) == i
  {
    var n: nat := -i;
    NatToStringRoundTrip(n);
    ParseNegative(NatToString(n), n);
    NegativeSpelling(i, n);
  }

  lemma NegativeSpelling(i: int, n: nat)
    requires i < 0 && n == -i
    ensures IntToString(i) == "-" + NatToString(n)
  {
  }

  /** A minus sign before digits worth `n` reads as `-n`. */
  lemma ParseNegative(d: string, n: nat)
    requires |d| >= 1 && AllDigits(d) && DigitsValue(d) == n
    ensures ParseInt("-" + d) == -(n as int)
  {
    assert ("-" + d)[1..] == d;
  }

  lemma {:induction false} NonNegativeRoundTrip(i: int)
    requires i >= 0
    ensures ParseInt(IntToString(i)) == i
  {
    var s := IntToString(i);
    assert s == NatToString(i);
    assert IsDigit(s[0]);
    NatToStringRoundTrip(i);
    assert ParseInt(s) == DigitsValue(s);
  }

  /** Distinct integers are spelled differently. */
  lemma IntToStringInjective(i: int, j: int)
    requires IntToString(i) == IntToString(j)
    ensures i == j
  {
    IntToStringRoundTrip(i);
    IntToStringRoundTrip(j);
  }

  lemma NatToStringInjective(m: nat, n: nat)
    requires NatToString(m) == NatToString(n)
    ensures m == n
  {
    NatToStringRoundTrip(m);
    NatToStringRoundTrip(n);
  }
}
