/** Fixed-width machine words: bytes on the wire, 32-bit unsigned counters of
    microseconds, and 32-bit signed statistics; and optional values. */
module Words {

  datatype Option<+T> = None | Some(value: T)

  type Byte = x: int | 0 <= x < 256

  const TWO31: int := 0x8000_0000
  const TWO32: int := 0x1_0000_0000

  /** A uint32_t. */
  type Word = x: int | 0 <= x < TWO32

  function Wrap(x: int): Word {
    x % TWO32
  }

  /** Unsigned subtraction of two readings of the microsecond counter. */
  function Elapsed(now: Word, since: Word): Word {
    Wrap(now - since)
  }

  /** The 32-bit difference of two readings is the true distance exactly when
      that distance fits in 32 bits, even if the counter wrapped in between. */
  lemma ElapsedAcrossWrap(since: nat, now: nat)
    requires since <= now
    ensures Elapsed(Wrap(now), Wrap(since)) == now - since <==> now - since < TWO32
  {
    var q0, q1 := since / TWO32, now / TWO32;
    assert Wrap(now) - Wrap(since) == (now - since) + (q0 - q1) * TWO32;
    WrapShift(now - since, q0 - q1);
  }

  lemma WrapShift(x: int, k: int)
    ensures Wrap(x + k * TWO32) == Wrap(x)
  {
    var q, r := x / TWO32, x % TWO32;
    assert x + k * TWO32 == (q + k) * TWO32 + r;
    assert (x + k * TWO32) / TWO32 == q + k;
  }

  /** Two's complement reading of an unbounded count as an int32. */
  function ToInt32(n: int): int {
    (n + TWO31) % TWO32 - TWO31
  }

  /** Increment of an atomic int32, which wraps. */
  function Bump(c: int): int {
    if c == TWO31 - 1 then -TWO31 else c + 1
  }

  lemma BumpCounts(n: nat)
    ensures Bump(ToInt32(n)) == ToInt32(n + 1)
  {
  }

  lemma SmallCountsAreExact(n: nat)
    requires n < TWO31
    ensures ToInt32(n) == n
  {
  }
}
