/** Go's int64: two's complement wrap-around, the left shift, and division that truncates. */
module Int64 {

  const MAX := 0x7FFF_FFFF_FFFF_FFFF
  const HALF := 0x8000_0000_0000_0000
  const SIZE := 0x1_0000_0000_0000_0000

  predicate IsInt64(x: int) { -HALF <= x < HALF }

  /** The int64 that is congruent to x modulo 2^64. */
  function Wrap(x: int): (r: int)
    ensures IsInt64(r)
    ensures IsInt64(x) ==> r == x
  {
    (x + HALF) % SIZE - HALF
  }

  function Pow2(n: nat): (r: nat)
    ensures r >= 1
  {
    if n == 0 then 1 else 2 * Pow2(n - 1)
  }

  /** x << s: bits shifted out are lost, so nothing is left once s reaches 64. */
  function Shl(x: int, s: nat): (r: int)
    ensures IsInt64(r)
  {
    if s >= 64 then 0 else Wrap(x * Pow2(s))
  }

  /** x / y, rounded towards zero. */
  function Quo(x: int, y: int): int
    requires y > 0
  {
    if x >= 0 then x / y else -((-x) / y)
  }

  /** x % y, with the sign of x. */
  function Rem(x: int, y: int): int
    requires y > 0
  {
    x - Quo(x, y) * y
  }

  lemma {:induction false} Pow2Add(m: nat, n: nat)
    ensures Pow2(m + n) == Pow2(m) * Pow2(n)
    decreases n
  {
    if n > 0 {
      Pow2Add(m, n - 1);
      Twice(Pow2(m), Pow2(n - 1));
    }
  }

  lemma Twice(a: int, b: int)
    ensures 2 * (a * b) == a * (2 * b)
  {}

  lemma Pow2Monotone(m: nat, n: nat)
    requires m <= n
    ensures Pow2(m) <= Pow2(n)
    decreases n
  {
    if m < n { Pow2Monotone(m, n - 1); }
  }

  lemma Pow2Of16Multiples()
    ensures Pow2(16) == 0x1_0000
    ensures Pow2(32) == 0x1_0000_0000
    ensures Pow2(62) == 0x4000_0000_0000_0000
    ensures Pow2(63) == HALF
    ensures Pow2(64) == SIZE
  {
    assert Pow2(8) == 256;
    Pow2Add(8, 8);
    Pow2Add(16, 16);
    Pow2Add(32, 32);
    assert Pow2(64) == 2 * Pow2(63);
    assert Pow2(63) == 2 * Pow2(62);
  }

  /** The wrapped value differs from the true one by a whole number of 2^64. */
  lemma WrapOffset(x: int) returns (q: int)
    ensures x == Wrap(x) + q * SIZE
  {
    q := (x + HALF) / SIZE;
  }

  /** Every shifted value is a multiple of 2^s: wrapping does not destroy the low zero bits. */
  lemma ShlIsMultiple(x: int, s: nat) returns (m: int)
    requires s < 64
    ensures Shl(x, s) == m * Pow2(s)
  {
    var q := WrapOffset(x * Pow2(s));
    Pow2Of16Multiples();
    Pow2Add(64 - s, s);
    m := x - q * Pow2(64 - s);
    Distribute(x, q, Pow2(64 - s), Pow2(s));
  }

  lemma Distribute(x: int, q: int, u: int, v: int)
    ensures (x - q * u) * v == x * v - q * (u * v)
  {
    Associate(q, u, v);
  }

  lemma Associate(q: int, u: int, v: int)
    ensures (q * u) * v == q * (u * v)
  {}
}
