/** Printing a non-negative number with `%d` and reading it back. */
module Decimals {
  import opened Wrappers

  predicate IsDigit(c: char) {
    '0' <= c <= '9'
  }

  predicate AllDigits(s: string) {
    forall i | 0 <= i < |s| :: IsDigit(s[i])
  }

  /** What `%d` prints. */
  function Decimal(n: nat): (s: string)
    ensures |s| > 0 && AllDigits(s)
  {
    if n < 10 then [('0' as int + n) as char]
    else Decimal(n / 10) + [('0' as int + n % 10) as char]
  }

  /** The number that a string of digits denotes, most significant digit first. */
  function DigitsValue(s: string): nat
    requires AllDigits(s)
  {
    if s == "" then 0
    else 10 * DigitsValue(s[..|s| - 1]) + (s[|s| - 1] as int - '0' as int)
  }

  function ParseNat(s: string): Option<nat> {
    if s != "" && AllDigits(s) then Some(DigitsValue(s)) else None
  }

  lemma {:induction false} DecimalValue(n: nat)
    ensures DigitsValue(Decimal(n)) == n
  {
    var s := Decimal(n);
    if n < 10 {
      assert s[..0] == "";
    } else {
      assert s[..|s| - 1] == Decimal(n / 10);
      DecimalValue(n / 10);
    }
  }

  /** Reading what was printed gives the number back, so printing is injective. */
  lemma ParsePrinted(n: nat)
    ensures ParseNat(Decimal(n)) == Some(n)
  {
    DecimalValue(n);
  }

  /** The most significant digit comes first, and there are no leading zeros. */
  lemma PrintedDigits(n: nat, d: nat)
    requires d < 10
    ensures Decimal(d) == ["0123456789"[d]]
    ensures n > 0 ==> Decimal(10 * n + d) == Decimal(n) + ["0123456789"[d]]
  {
    assert "0123456789"[d] == ('0' as int + d) as char;
    assert (10 * n + d) / 10 == n && (10 * n + d) % 10 == d;
  }

  /** What `%d` prints for a number of either sign. */
  function Printed(n: int): string {
    if n < 0 then "-" + Decimal(-n) else Decimal(n)
  }

  function ParseInt(s: string): Option<int> {
    if s != "" && s[0] == '-' then
      var digits := ParseNat(s[1..]);
      if digits.Some? then Some(0 - digits.value) else None
    else
      ParseNat(s)
  }

  lemma ParsePrintedInt(n: int)
    ensures ParseInt(Printed(n)) == Some(n)
  {
    if n < 0 {
      ParsePrinted(-n);
      assert Printed(n)[1..] == Decimal(-n);
    } else {
      ParsePrinted(n);
      assert IsDigit(Decimal(n)[0]);
    }
  }

  /** The hyphen before a printed number is the last one, so both parts can be recovered. */
  lemma HyphenatedInjective(a: string, i: nat, b: string, j: nat)
    requires a + "-" + Decimal(i) == b + "-" + Decimal(j)
    ensures a == b && i == j
  {
    var s, d, e := a + "-" + Decimal(i), Decimal(i), Decimal(j);
    assert s[|a|] == '-' && s[|b|] == '-';
    assert forall k | |a| < k < |s| :: s[k] == d[k - |a| - 1];
    assert forall k | |b| < k < |s| :: s[k] == e[k - |b| - 1];
    assert |a| == |b|;
    assert a == s[..|a|] && b == s[..|b|];
    assert d == s[|a| + 1..] && e == s[|b| + 1..];
    DecimalValue(i);
    DecimalValue(j);
  }
}
