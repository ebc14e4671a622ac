/** Machine integers as ranges of mathematical ones.

    Subset types hold what an integer of 8, 16 or 32 bits can; a cast or an operation that may
    wrap around is written as a remainder.  The lemmas say when remainders can be left out or
    taken once only, which the proofs about `tot_len` fields, checksums and clocks need. */
module Bytes {
  type byte = b: int | 0 <= b < 0x100
  type u16 = n: int | 0 <= n < 0x1_0000
  type u32 = n: int | 0 <= n < 0x1_0000_0000

  /** A cast to u8_t. */
  function Low8(n: int): byte {
    n % 0x100
  }

  /** A cast to u16_t. */
  function Low16(n: int): u16 {
    n % 0x1_0000
  }

  /** A cast to u32_t. */
  function Low32(n: int): u32 {
    n % 0x1_0000_0000
  }

  lemma {:induction false} Low16Shift(n: int, k: int)
    ensures Low16(n + 0x1_0000 * k) == Low16(n)
  {
  }

  /** Sums may be cut to 16 bits at any time. */
  lemma {:induction false} Low16Plus(a: int, b: int)
    ensures Low16(Low16(a) + b) == Low16(a + b)
  {
    var i := a / 0x1_0000;
    assert a == 0x1_0000 * i + Low16(a);
    Low16Shift(Low16(a) + b, i);
  }

  lemma {:induction false} Low16Minus(a: int, b: int)
    ensures Low16(a - Low16(b)) == Low16(a - b)
  {
    var i := b / 0x1_0000;
    assert b == 0x1_0000 * i + Low16(b);
    Low16Shift(a - b, i);
  }

  lemma {:induction false} Low8Plus(a: int, b: int)
    ensures Low8(Low8(a) + b) == Low8(a + b)
  {
    var i := a / 0x100;
    assert a == 0x100 * i + Low8(a);
    assert (Low8(a) + b + 0x100 * i) % 0x100 == (Low8(a) + b) % 0x100;
  }

  lemma {:induction false} Low32Shift(n: int, k: int)
    ensures Low32(n + 0x1_0000_0000 * k) == Low32(n)
  {
  }

  lemma {:induction false} Low32Plus(a: int, b: int)
    ensures Low32(Low32(a) + b) == Low32(a + b)
  {
    var i := a / 0x1_0000_0000;
    assert a + b == Low32(a) + b + 0x1_0000_0000 * i;
    Low32Shift(Low32(a) + b, i);
  }

  lemma {:induction false} Low32Minus(a: int, b: int)
    ensures Low32(Low32(a) - Low32(b)) == Low32(a - b)
  {
    var i, j := a / 0x1_0000_0000, b / 0x1_0000_0000;
    assert a - b == Low32(a) - Low32(b) + 0x1_0000_0000 * (i - j);
    Low32Shift(Low32(a) - Low32(b), i - j);
  }

  // ---- quotient and remainder -----------------------------------------------------------------

  lemma {:induction false} Remainder(p: nat, q: nat, r: nat)
    requires r < p
    ensures (p * q + r) % p == r
  {
    assert (p * q + r) / p == q by {
      assert p * q <= p * q + r < p * q + p;
      QuotientIs(p * q + r, p, q);
    }
  }

  lemma {:induction false} QuotientIs(n: nat, p: nat, q: nat)
    requires 0 < p && p * q <= n < p * q + p
    ensures n / p == q
  {
    var d := n / p;
    assert d * p <= n < d * p + p;
    if d < q { Multiples(d + 1, q, p); }
    if q < d { Multiples(q + 1, d, p); }
  }

  lemma {:induction false} Multiples(a: nat, b: nat, p: nat)
    requires a <= b
    ensures a * p <= b * p
  {
  }
}
