/** Printed natural numbers, as used inside generated keys. */
module Decimal {

  function Digit(d: nat): char
    requires d < 10
  {
    ('0' as int + d) as char
  }

  function Printed(n: nat): (s: string)
    ensures |s| > 0 && (|s| == 1 <==> n < 10)
  {
    if n < 10 then [Digit(n)] else Printed(n / 10) + [Digit(n % 10)]
  }

  /** Different numbers print differently. */
  lemma {:induction false} PrintedInjective(m: nat, n: nat)
    requires Printed(m) == Printed(n)
    ensures m == n
  {
    var s, t := Printed(m), Printed(n);
    assert s[|s| - 1] == t[|t| - 1];
    if m >= 10 {
      assert s[..|s| - 1] == Printed(m / 10) && t[..|t| - 1] == Printed(n / 10);
      PrintedInjective(m / 10, n / 10);
    }
  }
}
