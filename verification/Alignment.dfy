/** Rounding up to the CPU alignment (LWIP_MEM_ALIGN_SIZE) in a machine integer type. */
module Alignment {

  /** `n` is a multiple of `a`. */
  predicate Aligned(a: nat, n: nat)
    requires 0 < a
  {
    if n < a then n == 0 else Aligned(a, n - a)
  }

  lemma {:induction false} AlignedSum(a: nat, x: nat, y: nat)
    requires 0 < a && Aligned(a, x) && Aligned(a, y)
    ensures Aligned(a, x + y)
    decreases x
  {
    if a <= x {
      AlignedSum(a, x - a, y);
      assert x + y - a == x - a + y;
    }
  }

  lemma {:induction false} AlignedDifference(a: nat, x: nat, y: nat)
    requires 0 < a && y <= x && Aligned(a, x) && Aligned(a, y)
    ensures Aligned(a, x - y)
    decreases y
  {
    if a <= y {
      AlignedDifference(a, x - a, y - a);
      assert x - a - (y - a) == x - y;
    }
  }

  /** LWIP_MEM_ALIGN_SIZE without a cast: the least multiple of `a` from `n` on. */
  function RoundTo(n: nat, a: nat): (r: nat)
    requires 0 < a
    ensures Aligned(a, r) && n <= r < n + a
    decreases n
  {
    if n == 0 then 0 else if n <= a then a else RoundTo(n - a, a) + a
  }

  /** The same with the result cast to an unsigned type of `w` values: it can pass `w`
      once at most, so the cast takes `w` away. */
  function AlignUp(n: nat, a: nat, w: nat): (r: nat)
    requires 0 < a <= w && Aligned(a, w) && n < w
    ensures Aligned(a, r) && r < w
    ensures n + a <= w ==> n <= r < n + a
    ensures w < n + a ==> r == 0 || n <= r
  {
    var up := RoundTo(n, a);
    if w <= up then
      AlignedDifference(a, up, w);
      BelowAlignment(a, up - w);
      up - w
    else up
  }

  lemma {:induction false} BelowAlignment(a: nat, n: nat)
    requires 0 < a && Aligned(a, n) && n < a
    ensures n == 0
  {
  }

  /** Only one multiple of `a` lies in `n .. n + a`. */
  lemma {:induction false} RoundToIsLeast(n: nat, a: nat, m: nat)
    requires 0 < a && Aligned(a, m) && n <= m
    ensures RoundTo(n, a) <= m
    decreases n
  {
    if a < n { RoundToIsLeast(n - a, a, m - a); }
  }
}
