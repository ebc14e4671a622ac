/** lwip/core/inet_chksum.c on a little-endian or big-endian machine. */
module Checksum {
  import opened Bytes
  import opened InternetSum
  import opened Lists
  import opened PbufBytes
  import opened PbufMemory

  datatype Version = BytePairs | Words | DoubleWords

  /** What the compiler and lwipopts.h decide. */
  datatype Machine = Machine(bigEndian: bool, version: Version)

  // ---- memory seen as machine words -----------------------------------------------------

  function Load16(bigEndian: bool, b: seq<byte>, i: nat): u16
    requires i + 2 <= |b|
  {
    if bigEndian then Word(b[i], b[i + 1]) else Word(b[i + 1], b[i])
  }

  function Load32(bigEndian: bool, b: seq<byte>, i: nat): u32
    requires i + 4 <= |b|
  {
    var first: int, second: int := Load16(bigEndian, b, i), Load16(bigEndian, b, i + 2);
    if bigEndian then 0x1_0000 * first + second else first + 0x1_0000 * second
  }

  /** A 16-bit variable that holds `first` and `second` in the order of memory. */
  function Stored16(bigEndian: bool, first: byte, second: byte): u16 {
    if bigEndian then Word(first, second) else Word(second, first)
  }

  /** The rest of the sum, from `i` on. */
  ghost function Rest(m: Machine, b: seq<byte>, i: nat): nat
    requires i <= |b|
  {
    ByteSum(b[i..], m.bigEndian)
  }

  lemma {:induction false} RestWord(m: Machine, b: seq<byte>, i: nat)
    requires i + 2 <= |b|
    ensures Rest(m, b, i) == Load16(m.bigEndian, b, i) + Rest(m, b, i + 2)
  {
    ByteSumWord(b[i..], m.bigEndian);
    assert b[i..][2..] == b[i + 2..];
  }

  lemma {:induction false} RestDoubleWord(m: Machine, b: seq<byte>, i: nat)
    requires i + 4 <= |b|
    ensures Canonical(Load32(m.bigEndian, b, i) + Rest(m, b, i + 4)) == Canonical(Rest(m, b, i))
  {
    RestWord(m, b, i);
    RestWord(m, b, i + 2);
    var first: int, second: int := Load16(m.bigEndian, b, i), Load16(m.bigEndian, b, i + 2);
    var high := if m.bigEndian then first else second;
    assert Load32(m.bigEndian, b, i) + Rest(m, b, i + 4) == Rest(m, b, i) + 0xFFFF * high;
    if 0 < high { CarriesBack(Rest(m, b, i), high); }
  }

  lemma {:induction false} RestEnd(m: Machine, b: seq<byte>, i: nat)
    requires i <= |b| <= i + 1
    ensures Rest(m, b, i) == if i == |b| then 0 else Stored16(m.bigEndian, b[i], 0)
  {
    var r := b[i..];
    if i < |b| {
      assert r[0] == b[i] && r[1..] == [];
      assert ByteSum(r[1..], !m.bigEndian) == 0;
    }
  }

  /** The sum of `b` where the first byte comes at an odd address: the places are exchanged. */
  lemma {:induction false} OddStart(m: Machine, b: seq<byte>)
    requires b != []
    ensures ByteSum(b, !m.bigEndian) == Stored16(m.bigEndian, 0, b[0]) + Rest(m, b, 1)
  {
  }

  // ---- the three versions of lwip_standard_chksum --------------------------------------------

  /** The sum at a machine of a certain byte order: stored to memory there, it gives the bytes
      of the network's sum. */
  ghost function HostChecksum(m: Machine, b: seq<byte>): u16 {
    Htons(m.bigEndian, Rfc1071(b))
  }

  /** Addition in u32_t. */
  method Add32(a: u32, b: u32) returns (r: u32)
    requires a + b < 0x1_0000_0000
    ensures r == a + b
  {
    r := Low32(a + b);
  }

  /** `sum += *ps++` */
  method AddWord(m: Machine, b: seq<byte>, i: nat, sum: u32) returns (r: u32)
    requires i + 2 <= |b| && sum + Load16(m.bigEndian, b, i) < 0x1_0000_0000
    ensures r + Rest(m, b, i + 2) == sum + Rest(m, b, i)
    ensures r <= sum + 0xFFFF
  {
    RestWord(m, b, i);
    r := Add32(sum, Load16(m.bigEndian, b, i));
  }

  /** Adding words until at most one byte is left. */
  method AddWords(m: Machine, b: seq<byte>, start: nat, sum0: u32) returns (sum: u32, i: nat)
    requires start <= |b| && sum0 + Rest(m, b, start) < 0x1_0000_0000
    ensures start <= i <= |b| <= i + 1 && sum + Rest(m, b, i) == sum0 + Rest(m, b, start)
  {
    sum, i := sum0, start;
    while |b| - i > 1
      invariant start <= i <= |b| && sum + Rest(m, b, i) == sum0 + Rest(m, b, start)
    {
      RestWord(m, b, i);
      sum := AddWord(m, b, i, sum);
      i := i + 2;
    }
  }

  /** Version 1: pairs of bytes as words of the network, whatever the alignment. */
  method ByteWise(m: Machine, b: seq<byte>) returns (c: u16)
    requires |b| <= 0x2_0000
    ensures c == HostChecksum(m, b)
  {
    ByteSumBound(b, true);
    assert b[0..] == b;
    var acc, i := AddWords(m.(bigEndian := true), b, 0, 0);
    acc := AddLastByte(m.(bigEndian := true), b, i, acc);
    var sum := FoldTwo(acc);
    Rfc1071IsByteSum(b);
    c := Htons(m.bigEndian, sum);
  }

  method AddLastByte(m: Machine, b: seq<byte>, i: nat, acc: u32) returns (r: u32)
    requires m.bigEndian && i <= |b| <= i + 1 && acc + Rest(m, b, i) < 0x1_0000_0000
    ensures r == acc + Rest(m, b, i)
  {
    RestEnd(m, b, i);
    r := acc;
    if |b| - i > 0 {
      r := Add32(r, Word(b[i], 0));
    }
  }

  /** The deferred carries of version 1. */
  method FoldTwo(acc: u32) returns (sum: u16)
    ensures sum == Canonical(acc)
  {
    FoldIs(acc);
    FoldIs(Fold(acc));
    var r := Fold(acc);
    if r >= 0x1_0000 {
      r := Fold(r);
    }
    sum := r;
  }

  /** The end of versions 2 and 3: two folds, and a swap if the first address was odd. */
  function Finish(sum: u32, odd: bool): u16 {
    SwapIf(odd, Fold(Fold(sum)))
  }

  function SwapIf(odd: bool, v: u32): u16 {
    Low16(if odd then SwapBytes(v) else v)
  }

  lemma {:induction false} SwapIfIs(odd: bool, v: u16)
    ensures SwapIf(odd, v) == if odd then SwapBytes(v) else v
  {
    var r: u16 := if odd then SwapBytes(v) else v;
    assert Low16(r) == r;
  }

  lemma {:induction false} FinishIs(m: Machine, b: seq<byte>, sum: u32, odd: bool)
    requires Canonical(sum) == Canonical(ByteSum(b, m.bigEndian != odd))
    ensures Finish(sum, odd) == HostChecksum(m, b)
  {
    FoldTwice(sum);
    SwapIfIs(odd, Canonical(sum));
    HostSum(m.bigEndian, b);
    SwapCanonical(b, !m.bigEndian);
  }

  /** `((u8_t *)&t)[0] = x` */
  function SetFirst(bigEndian: bool, t: u16, x: byte): u16 {
    if bigEndian then Word(x, t % 0x100) else Word(t / 0x100, x)
  }

  /** The last byte goes to the place the first one left free. */
  lemma {:induction false} SetFirstAdds(bigEndian: bool, head: byte, x: byte)
    ensures SetFirst(bigEndian, Stored16(bigEndian, 0, head), x) == Stored16(bigEndian, 0, head) + Stored16(bigEndian, x, 0)
  {
  }

  /** A first byte at an odd address is kept in the place of a second one. */
  method TakeHead(m: Machine, b: seq<byte>, odd: bool) returns (t: u16, i: nat, ghost head: byte)
    ensures i <= |b| && i <= 1 && t == Stored16(m.bigEndian, 0, head)
    ensures t + Rest(m, b, i) == ByteSum(b, m.bigEndian != odd)
    ensures t + Rest(m, b, i) <= 0xFFFF * ((|b| + 1) / 2)
  {
    ByteSumBound(b, m.bigEndian != odd);
    assert b[0..] == b;
    t, i, head := 0, 0, 0;
    if odd && |b| > 0 {
      OddStart(m, b);
      head := b[0];
      t := Stored16(m.bigEndian, 0, b[0]);
      i := 1;
    }
  }

  /** A last byte joins it in the place of a first one; then both are added. */
  method AddEnds(m: Machine, b: seq<byte>, i: nat, t: u16, sum: u32, ghost head: byte) returns (r: u32)
    requires i <= |b| <= i + 1 && t == Stored16(m.bigEndian, 0, head) && sum + t + Rest(m, b, i) < 0x1_0000_0000
    ensures r == sum + t + Rest(m, b, i)
  {
    RestEnd(m, b, i);
    var t' := t;
    if |b| - i > 0 {
      SetFirstAdds(m.bigEndian, head, b[i]);
      t' := SetFirst(m.bigEndian, t, b[i]);
    }
    r := Add32(sum, t');
  }

  /** Version 2: aligned 16-bit words. */
  method WordWise(m: Machine, b: seq<byte>, address: nat) returns (c: u16)
    requires |b| <= 0x2_0000
    ensures c == HostChecksum(m, b)
  {
    var odd := address % 2 == 1;
    var t, i, sum;
    ghost var head;
    t, i, head := TakeHead(m, b, odd);
    sum, i := AddWords(m, b, i, 0);
    sum := AddEnds(m, b, i, t, sum, head);
    FinishIs(m, b, sum, odd);
    c := Finish(sum, odd);
  }

  /** Addition with the carry added back: `sum += x; if (sum < x) sum++`. */
  function AddWithCarry(sum: u32, x: u32): (r: u32)
    ensures Canonical(r) == Canonical(sum + x)
  {
    var r := Low32(sum + x);
    if r < sum then
      assert sum + x == r + 1 + 0xFFFF * 0x1_0001;
      CarriesBack(r + 1, 0x1_0001);
      r + 1
    else r
  }

  /** Version 3: aligned 32-bit words with end-around carry. */
  method DoubleWordWise(m: Machine, b: seq<byte>, address: nat) returns (c: u16)
    ensures c == HostChecksum(m, b)
  {
    var odd := address % 2 == 1;
    var t, i, sum: u32;
    ghost var head;
    t, i, head := TakeHead(m, b, odd);
    ghost var total: nat := t + Rest(m, b, i);
    sum := 0;
    if (address + i) % 4 != 0 && |b| - i > 1 {
      sum := AddWord(m, b, i, 0);
      i := i + 2;
    }
    sum, i := AddDoubleWords(m, b, i, t, sum);
    FoldRound(sum, t + Rest(m, b, i));
    RestBound(m, b, i);
    sum := Fold(sum);
    ghost var folded: nat := sum + t + Rest(m, b, i);
    sum, i := AddWords(m, b, i, sum);
    sum := AddEnds(m, b, i, t, sum, head);
    FinishIs(m, b, sum, odd);
    c := Finish(sum, odd);
  }

  /** The main loop of version 3: eight bytes a round. */
  method AddDoubleWords(m: Machine, b: seq<byte>, start: nat, t: u16, sum0: u32) returns (sum: u32, i: nat)
    requires start <= |b|
    ensures i <= |b| <= i + 7
    ensures Canonical(sum + t + Rest(m, b, i)) == Canonical(sum0 + t + Rest(m, b, start))
  {
    sum, i := sum0, start;
    while |b| - i > 7
      invariant i <= |b| && Canonical(sum + t + Rest(m, b, i)) == Canonical(sum0 + t + Rest(m, b, start))
    {
      sum := AddDoubleWord(m, b, i, t, sum);
      sum := AddDoubleWord(m, b, i + 4, t, sum);
      i := i + 8;
    }
  }

  method AddDoubleWord(m: Machine, b: seq<byte>, i: nat, t: u16, sum: u32) returns (r: u32)
    requires i + 4 <= |b|
    ensures Canonical(r + t + Rest(m, b, i + 4)) == Canonical(sum + t + Rest(m, b, i))
  {
    DoubleRound(m, b, i, sum, t);
    r := AddWithCarry(sum, Load32(m.bigEndian, b, i));
  }

  lemma {:induction false} RestBound(m: Machine, b: seq<byte>, i: nat)
    requires i <= |b| <= i + 7
    ensures Rest(m, b, i) <= 0x4_0000
  {
    ByteSumBound(b[i..], m.bigEndian);
  }

  lemma {:induction false} FoldRound(sum: u32, rest: nat)
    ensures Fold(sum) < 0x1_FFFF && Canonical(Fold(sum) + rest) == Canonical(sum + rest)
  {
    FoldIs(sum);
    SameSum(Fold(sum), sum, rest);
  }

  lemma {:induction false} DoubleRound(m: Machine, b: seq<byte>, i: nat, sum: u32, t: u16)
    requires i + 4 <= |b|
    ensures Canonical(AddWithCarry(sum, Load32(m.bigEndian, b, i)) + t + Rest(m, b, i + 4)) == Canonical(sum + t + Rest(m, b, i))
  {
    var w: nat, r := Load32(m.bigEndian, b, i), Rest(m, b, i + 4);
    RestDoubleWord(m, b, i);
    SameSum(AddWithCarry(sum, w), sum + w, t + r);
    SameSum(w + r, Rest(m, b, i), sum + t);
  }

  /** LWIP_CHKSUM */
  method Standard(m: Machine, b: seq<byte>, address: nat) returns (c: u16)
    requires |b| <= 0x2_0000
    ensures c == HostChecksum(m, b)
  {
    match m.version {
      case BytePairs => c := ByteWise(m, b);
      case Words => c := WordWise(m, b, address);
      case DoubleWords => c := DoubleWordWise(m, b, address);
    }
  }
}
