/** Decimal notation of natural numbers. */
module Decimals {
  predicate IsDigit(c: char) {
    '0' <= c <= '9'
  }

  /** The decimal digits of n, as printf("%u") writes them. */
  function Dec(n: nat): string {
    (if n < 10 then [] else Dec(n / 10)) + [('0' as int + n % 10) as char]
  }

  predicate AllDigits(s: string) {
    forall k :: 0 <= k < |s| ==> IsDigit(s[k])
  }

  function DigitsValue(s: string): nat
    requires AllDigits(s)
  {
    if s == [] then 0
    else 10 * DigitsValue(s[..|s| - 1]) + (s[|s| - 1] as int - '0' as int)
  }

  lemma {:induction false} DecIsDigits(n: nat)
    ensures Dec(n) != [] && AllDigits(Dec(n)) && DigitsValue(Dec(n)) == n
  {
    var last := [('0' as int + n % 10) as char];
    assert IsDigit(last[0]);
    if n >= 10 {
      DecIsDigits(n / 10);
      assert Dec(n) == Dec(n / 10) + last;
      assert Dec(n)[..|Dec(n)| - 1] == Dec(n / 10);
    } else {
      assert Dec(n) == last;
      assert DigitsValue(last[..0]) == 0;
    }
  }
}
