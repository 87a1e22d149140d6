/** Remainders by a variable divisor, in steps small enough for the verifier. */
module Remainders {

  lemma Multiples(d: int, step: int)
    requires step > 0
    ensures d >= 1 ==> d * step >= step
    ensures d <= -1 ==> d * step <= -step
  {
  }

  lemma SmallMultipleIsZero(r: int, d: int, step: int)
    requires r == d * step && -step < r < step
    ensures d == 0 && r == 0
  {
    Multiples(d, step);
  }

  lemma Difference(a: int, b: int, step: int)
    requires step > 0
    ensures a - b == (a / step - b / step) * step + (a % step - b % step)
  {
    assert a == (a / step) * step + a % step;
    assert b == (b / step) * step + b % step;
    Distributes(a / step, b / step, step);
  }

  lemma Distributes(x: int, y: int, step: int)
    ensures x * step - y * step == (x - y) * step
  {
  }

  lemma UniqueRemainder(a: int, q: int, r: int, step: int)
    requires a == q * step + r && 0 <= r < step
    ensures a % step == r
  {
    assert a == (a / step) * step + a % step;
    Distributes(a / step, q, step);
    SmallMultipleIsZero(r - a % step, a / step - q, step);
  }

  lemma ModOfMore(a: int, k: int, step: int)
    requires step > 0
    ensures (a + k * step) % step == a % step
  {
    assert a == (a / step) * step + a % step;
    Distributes(a / step, -k, step);
    UniqueRemainder(a + k * step, a / step + k, a % step, step);
  }

  /** Numbers closer together than a step have different remainders. */
  lemma CloseNumbersDiffer(a: int, b: int, step: int)
    requires a < b < a + step
    ensures a % step != b % step
  {
    Difference(b, a, step);
    if b % step == a % step {
      SmallMultipleIsZero(b - a, b / step - a / step, step);
    }
  }
}
