/** Decimal text of sequence numbers (`strconv.FormatInt` and `strconv.ParseInt` in base ten). */
module Decimal {
  import opened Wrappers

  const INT64_LIMIT: int := 0x8000_0000_0000_0000

  predicate IsDigit(c: char) {
    '0' <= c <= '9'
  }

  function Digit(n: nat): (c: char)
    requires n < 10
    ensures IsDigit(c) && DigitValue(c) == n
  {
    '0' + n as char
  }

  function DigitValue(c: char): (n: int)
    ensures IsDigit(c) ==> 0 <= n < 10
  {
    c as int - '0' as int
  }

  function Format(n: nat): (s: string)
    ensures s != "" && forall i | 0 <= i < |s| :: IsDigit(s[i])
  {
    if n < 10 then [Digit(n)] else Format(n / 10) + [Digit(n % 10)]
  }

  predicate AllDigits(s: string) {
    forall i | 0 <= i < |s| :: IsDigit(s[i])
  }

  function ValueOf(s: string): nat
    requires AllDigits(s)
  {
    if s == "" then 0
    else
      assert IsDigit(s[|s| - 1]);
      ValueOf(s[..|s| - 1]) * 10 + DigitValue(s[|s| - 1])
  }

  /** An optional sign, at least one digit, a value that fits 64 bits. */
  function Parse(s: string): Option<int> {
    var negative := s != "" && s[0] == '-';
    var digits := if negative || (s != "" && s[0] == '+') then s[1..] else s;
    if digits == "" || !AllDigits(digits) then None
    else
      var v: int := ValueOf(digits);
      var n := if negative then -v else v;
      if -INT64_LIMIT <= n < INT64_LIMIT then Some(n) else None
  }

  lemma {:induction false} ValueOfFormat(n: nat)
    ensures ValueOf(Format(n)) == n
  {
    if n >= 10 {
      ValueOfFormat(n / 10);
      var s := Format(n);
      assert s[..|s| - 1] == Format(n / 10);
    }
  }

  lemma ParseFormat(n: nat)
    requires n < INT64_LIMIT
    ensures Parse(Format(n)) == Some(n)
  {
    ValueOfFormat(n);
    assert IsDigit(Format(n)[0]);
  }

  lemma FormatIsInjective(m: nat, n: nat)
    requires Format(m) == Format(n)
    ensures m == n
  {
    ValueOfFormat(m);
    ValueOfFormat(n);
  }

  /** At most `k` digits below ten to the `k`. */
  lemma {:induction false} FormatLength(n: nat, k: nat)
    requires k > 0 && n < Pow10(k)
    ensures |Format(n)| <= k
  {
    if n >= 10 {
      FormatLength(n / 10, k - 1);
    }
  }

  /** How a number is written: nothing but digits, and no zero in front of others. */
  predicate Canonical(s: string) {
    s != "" && AllDigits(s) && (s[0] == '0' ==> |s| == 1)
  }

  lemma {:induction false} FormatIsCanonical(n: nat)
    ensures Canonical(Format(n)) && (n > 0 ==> Format(n)[0] != '0')
  {
    if n >= 10 {
      FormatIsCanonical(n / 10);
    }
  }

  lemma {:induction false} LeadingDigitCounts(s: string)
    requires s != "" && AllDigits(s) && s[0] != '0'
    ensures ValueOf(s) > 0
  {
    if |s| > 1 {
      LeadingDigitCounts(s[..|s| - 1]);
    } else {
      assert s[..0] == "" && IsDigit(s[0]);
    }
  }

  lemma DigitOf(c: char)
    requires IsDigit(c)
    ensures Digit(DigitValue(c)) == c
  {
  }

  /** Canonical text is what its value is written as. */
  lemma {:induction false} FormatValueOf(s: string)
    requires Canonical(s)
    ensures Format(ValueOf(s)) == s
  {
    var n := |s| - 1;
    assert IsDigit(s[n]) && s == s[..n] + [s[n]];
    DigitOf(s[n]);
    if n == 0 {
      assert s[..n] == "";
    } else {
      LeadingDigitCounts(s[..n]);
      FormatValueOf(s[..n]);
    }
  }

  /** Of all texts that are read as a number, signs and leading zeros included, the canonical one is printed. */
  lemma PrintedIffCanonical(s: string, n: nat)
    requires Parse(s) == Some(n as int)
    ensures s == Format(n) <==> Canonical(s)
  {
    FormatIsCanonical(n);
    if Canonical(s) {
      assert IsDigit(s[0]);
      FormatValueOf(s);
    }
  }

  function Pow10(k: nat): nat {
    if k == 0 then 1 else 10 * Pow10(k - 1)
  }
}
