/** Numbers as text, as template literals print them and `Number` reads them back. */
module Decimal {
  predicate IsDigit(c: char) { '0' <= c <= '9' }

  predicate AllDigits(s: string) { forall i :: 0 <= i < |s| ==> IsDigit(s[i]) }

  function DigitOf(n: nat): (c: char)
    requires n < 10
    ensures IsDigit(c)
  {
    '0' + n as char
  }

  /** `${n}` */
  function Render(n: nat): (s: string)
    ensures 0 < |s| && AllDigits(s)
  {
    if n < 10 then [DigitOf(n)] else Render(n / 10) + [DigitOf(n % 10)]
  }

  /** `Number(s)` on a string of digits; the empty string reads 0. */
  function Value(s: string): nat
    requires AllDigits(s)
  {
    if s == "" then 0 else 10 * Value(s[..|s| - 1]) + (s[|s| - 1] as int - '0' as int)
  }

  lemma {:induction false} ReadsBack(n: nat)
    ensures Value(Render(n)) == n
  {
    var s := Render(n);
    if n < 10 {
      assert s[..0] == "";
    } else {
      ReadsBack(n / 10);
      assert s[..|s| - 1] == Render(n / 10);
    }
  }

  lemma RenderInjective(m: nat, n: nat)
    requires Render(m) == Render(n)
    ensures m == n
  {
    ReadsBack(m);
    ReadsBack(n);
  }
}
