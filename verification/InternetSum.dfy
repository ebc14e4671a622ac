/** The Internet checksum of section 1 of RFC 1071. */
module InternetSum {
  // The arithmetic here lets a program compute it with wider accumulators and in either byte order.

  import opened Bytes

  // ---- the definition -----------------------------------------------------------------

  /** Addition of 16-bit one's complement numbers. */
  function OnesAdd(a: u16, b: u16): u16 {
    if a + b < 0x1_0000 then a + b else a + b - 0xFFFF
  }

  function Word(high: byte, low: byte): u16 {
    0x100 * (high as int) + low
  }

  /** The sum of the 16-bit words of `b`, high byte first; an odd byte at the end is a high
      byte. */
  function Rfc1071(b: seq<byte>): u16 {
    if b == [] then 0
    else if |b| == 1 then Word(b[0], 0)
    else OnesAdd(Word(b[0], b[1]), Rfc1071(b[2..]))
  }

  function Complement(v: u16): u16 {
    0xFFFF - v
  }

  /** htons: the number whose bytes in memory are those of `v`, high byte first. */
  function Htons(bigEndian: bool, v: u16): u16 {
    if bigEndian then v else SwapBytes(v)
  }

  /** SWAP_BYTES_IN_WORD */
  function SwapBytes(v: u32): u16 {
    v % 0x100 * 0x100 + v / 0x100 % 0x100
  }

  /** FOLD_U32T */
  function Fold(v: u32): u32 {
    v / 0x1_0000 + v % 0x1_0000
  }

  // ---- sums without carries --------------------------------------------------------------

  /** The bytes of `b` added up, every other one as a high byte; `hi` tells of the first. */
  function ByteSum(b: seq<byte>, hi: bool): nat {
    if b == [] then 0 else (if hi then Word(b[0], 0) else b[0]) + ByteSum(b[1..], !hi)
  }

  predicate Odd(n: nat) {
    n % 2 == 1
  }

  lemma {:induction false} ByteSumConcat(a: seq<byte>, b: seq<byte>, hi: bool)
    ensures ByteSum(a + b, hi) == ByteSum(a, hi) + ByteSum(b, hi != Odd(|a|))
    decreases |a|
  {
    if a == [] {
      assert a + b == b;
    } else {
      ByteSumConcat(a[1..], b, !hi);
      assert (a + b)[1..] == a[1..] + b;
    }
  }

  lemma {:induction false} ByteSumWord(b: seq<byte>, hi: bool)
    requires 2 <= |b|
    ensures ByteSum(b, hi) == (if hi then Word(b[0], b[1]) else Word(b[1], b[0])) + ByteSum(b[2..], hi)
  {
    assert b[1..][1..] == b[2..] && b[1..][0] == b[1];
    assert ByteSum(b[1..], !hi) == (if !hi then Word(b[1], 0) else b[1]) + ByteSum(b[2..], hi);
  }

  lemma {:induction false} ByteSumBound(b: seq<byte>, hi: bool)
    ensures ByteSum(b, hi) <= 0xFFFF * ((|b| + 1) / 2)
    decreases |b|
  {
    if |b| == 1 {
      assert b[1..] == [];
    } else if 2 <= |b| {
      ByteSumWord(b, hi);
      ByteSumBound(b[2..], hi);
    }
  }

  // ---- numbers that stand for the same one's complement sum ----------------------------------

  /** Carries are added back until the sum has 16 bits. */
  function Canonical(n: nat): (v: u16)
    ensures v == 0 <==> n == 0
  {
    if n < 0x1_0000 then n else Canonical(n - 0xFFFF)
  }

  /** It does not matter when and how many carries were added back. */
  lemma {:induction false} CarriesBack(n: nat, k: nat)
    requires 0 < n
    ensures Canonical(n + 0xFFFF * k) == Canonical(n)
    decreases k
  {
    if 0 < k { CarriesBack(n, k - 1); }
  }

  lemma {:induction false} Reduced(n: nat) returns (k: nat)
    ensures n == Canonical(n) + 0xFFFF * k
    decreases n
  {
    if n < 0x1_0000 {
      k := 0;
    } else {
      k := Reduced(n - 0xFFFF);
      k := k + 1;
    }
  }

  lemma {:induction false} CanonicalPlus(a: nat, b: nat)
    ensures Canonical(Canonical(a) + b) == Canonical(a + b)
  {
    var k := Reduced(a);
    if 0 < a { CarriesBack(Canonical(a) + b, k); }
  }

  lemma {:induction false} SameSum(a: nat, a': nat, b: nat)
    requires Canonical(a) == Canonical(a')
    ensures Canonical(a + b) == Canonical(a' + b)
  {
    CanonicalPlus(a, b);
    CanonicalPlus(a', b);
  }

  lemma {:induction false} CanonicalTimes(a: nat)
    ensures Canonical(0x100 * Canonical(a)) == Canonical(0x100 * a)
  {
    var k := Reduced(a);
    if 0 < a { CarriesBack(0x100 * Canonical(a), 0x100 * k); }
  }

  lemma {:induction false} FoldIs(v: u32)
    ensures Canonical(Fold(v)) == Canonical(v) && Fold(v) < 0x1_FFFF
    ensures v < 0x1_FFFF ==> Fold(v) < 0x1_0000
  {
    assert v == Fold(v) + 0xFFFF * (v / 0x1_0000);
    if 0 < v { CarriesBack(Fold(v), v / 0x1_0000); }
  }

  /** Two folds make a sum canonical. */
  lemma {:induction false} FoldTwice(v: u32)
    ensures Fold(Fold(v)) == Canonical(v)
  {
    FoldIs(v);
    FoldIs(Fold(v));
  }

  lemma {:induction false} SwapIs(v: u16)
    ensures SwapBytes(v) == Canonical(0x100 * v) && SwapBytes(SwapBytes(v)) == v
  {
    var hi: int, lo: int := v / 0x100, v % 0x100;
    assert v == 0x100 * hi + lo;
    assert SwapBytes(v) == 0x100 * lo + hi;
    assert 0x100 * v == SwapBytes(v) + 0xFFFF * hi;
    if 0 < v { CarriesBack(SwapBytes(v), hi); }
  }

  /** Exchanging high and low bytes exchanges the bytes of the sum. */
  lemma {:induction false} ByteSumFlip(b: seq<byte>, hi: bool)
    ensures Canonical(ByteSum(b, !hi)) == Canonical(0x100 * ByteSum(b, hi))
    decreases |b|
  {
    if b != [] {
      ByteSumFlip(b[1..], !hi);
      var x: int, r, r' := b[0], ByteSum(b[1..], hi), ByteSum(b[1..], !hi);
      SameSum(r, 0x100 * r', if hi then x else 0x100 * x);
      if hi && 0 < x { CarriesBack(x + 0x100 * r', x); }
    }
  }

  /** The byte swap of a canonical sum is the canonical sum with bytes in the other places. */
  lemma {:induction false} SwapCanonical(b: seq<byte>, hi: bool)
    ensures SwapBytes(Canonical(ByteSum(b, hi))) == Canonical(ByteSum(b, !hi))
  {
    SwapIs(Canonical(ByteSum(b, hi)));
    CanonicalTimes(ByteSum(b, hi));
    ByteSumFlip(b, hi);
  }

  /** Section 1 of RFC 1071 by another way: add everything up, then reduce. */
  lemma {:induction false} Rfc1071IsByteSum(b: seq<byte>)
    ensures Rfc1071(b) == Canonical(ByteSum(b, true))
    decreases |b|
  {
    if |b| == 1 {
      assert b[1..] == [];
    } else if 2 <= |b| {
      ByteSumWord(b, true);
      Rfc1071IsByteSum(b[2..]);
      var w: nat, r := Word(b[0], b[1]), ByteSum(b[2..], true);
      OnesAddIs(w, Canonical(r));
      CanonicalPlus(r, w);
    }
  }

  lemma {:induction false} OnesAddIs(a: u16, b: u16)
    ensures OnesAdd(a, b) == Canonical(a + b)
  {
  }

  /** Section 2(B) of RFC 1071: the sum can be computed in the byte order of the machine. */
  lemma {:induction false} HostSum(bigEndian: bool, b: seq<byte>)
    ensures Htons(bigEndian, Rfc1071(b)) == Canonical(ByteSum(b, bigEndian))
  {
    Rfc1071IsByteSum(b);
    SwapCanonical(b, true);
  }

  lemma {:induction false} HtonsOfComplement(bigEndian: bool, v: u16)
    ensures Htons(bigEndian, Complement(v)) == Complement(Htons(bigEndian, v))
  {
    var hi: int, lo: int := v / 0x100, v % 0x100;
    assert v == 0x100 * hi + lo;
    assert Complement(v) == 0x100 * (0xFF - hi) + (0xFF - lo);
  }

  // ---- what the checksum is for ------------------------------------------------------------

  /** The bytes of a 16-bit field on the wire. */
  function Wire(v: u16): (b: seq<byte>)
    ensures |b| == 2
  {
    [v / 0x100, v % 0x100]
  }

  /** A sender that sums `a + field + c` with a zero field and stores the complement makes the
      whole sum to 0xFFFF: the checksum a receiver computes over all of it is zero. */
  lemma {:induction false} ReceiverAccepts(a: seq<byte>, c: seq<byte>)
    requires !Odd(|a|)
    ensures var field := Wire(Complement(Rfc1071(a + Wire(0) + c)));
            Complement(Rfc1071(a + field + c)) == 0
  {
    var s := ByteSum(a + Wire(0) + c, true);
    var v := Complement(Rfc1071(a + Wire(0) + c));
    FieldAdds(a, 0, c);
    FieldAdds(a, v, c);
    Rfc1071IsByteSum(a + Wire(0) + c);
    Rfc1071IsByteSum(a + Wire(v) + c);
    CanonicalPlus(s, v);
  }

  lemma {:induction false} FieldAdds(a: seq<byte>, v: u16, c: seq<byte>)
    requires !Odd(|a|)
    ensures ByteSum(a + Wire(v) + c, true) == ByteSum(a, true) + v + ByteSum(c, true)
  {
    ByteSumConcat(a + Wire(v), c, true);
    ByteSumConcat(a, Wire(v), true);
    WireSum(v, true);
  }

  lemma {:induction false} WireSum(v: u16, hi: bool)
    ensures ByteSum(Wire(v), hi) == Htons(hi, v)
  {
    ByteSumWord(Wire(v), hi);
    assert Wire(v)[2..] == [];
  }
}
