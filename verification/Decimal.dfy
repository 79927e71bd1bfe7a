/** Numbers written in decimal, as `${n}` writes them. */
module Decimal {

  function Digit(d: nat): (c: char)
    requires d < 10
    ensures '0' <= c <= '9'
  {
    '0' + d as char
  }

  predicate AllDigits(s: string) { forall i :: 0 <= i < |s| ==> '0' <= s[i] <= '9' }

  function Write(n: nat): (s: string)
    ensures s != "" && AllDigits(s)
  {
    if n < 10 then [Digit(n)] else Write(n / 10) + [Digit(n % 10)]
  }

  function Read(s: string): nat
    requires AllDigits(s)
  {
    if s == "" then 0 else 10 * Read(s[..|s| - 1]) + (s[|s| - 1] - '0') as int
  }

  lemma {:induction false} ReadWrite(n: nat)
    ensures Read(Write(n)) == n
  {
    if n < 10 {
      assert [Digit(n)][..0] == "";
    } else {
      ReadWrite(n / 10);
      var s := Write(n);
      assert s[..|s| - 1] == Write(n / 10);
    }
  }
}
