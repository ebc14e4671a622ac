/** lwip/core/inet_chksum.c: checksums over chains of pbufs cut at any place. */
module ChainChecksum {
  import opened Bytes
  import opened InternetSum
  import opened Lists
  import opened PbufBytes
  import opened PbufMemory
  import opened Checksum

  /** `acc` is the sum of `done`; `swapped` tells that high and low bytes are exchanged. */
  ghost predicate Summed(m: Machine, acc: u32, swapped: bool, done: seq<byte>) {
    acc == Canonical(ByteSum(done, m.bigEndian != swapped))
  }

  /** The checksum field for the bytes `b`, as the machine stores it. */
  ghost function Field(m: Machine, b: seq<byte>): u16 {
    Htons(m.bigEndian, Complement(Rfc1071(b)))
  }

  ghost function PrefixOf(b: seq<byte>, n: nat): seq<byte> {
    if n < |b| then b[..n] else b
  }

  lemma {:induction false} FoldSum(acc: u16, c: u16)
    ensures Fold(acc + c) == Canonical(acc + c)
  {
    FoldIs(acc + c);
  }

  /** A link is summed as if it began at an even place.  This is right as long as the bytes are
      exchanged exactly if an odd number came before. */
  lemma {:induction false} LinkSummed(m: Machine, acc: u16, swapped: bool, done: seq<byte>, b: seq<byte>)
    requires Summed(m, acc, swapped, done) && swapped == Odd(|done|)
    ensures Summed(m, Fold(acc + HostChecksum(m, b)), swapped, done + b)
  {
    FoldSum(acc, HostChecksum(m, b));
    HostSum(m.bigEndian, b);
    ByteSumConcat(done, b, m.bigEndian != swapped);
    var s, t := ByteSum(done, m.bigEndian != swapped), ByteSum(b, m.bigEndian);
    CanonicalPlus(s, Canonical(t));
    CanonicalPlus(t, s);
  }

  lemma {:induction false} OddSum(a: nat, b: nat)
    ensures Odd(a + b) == (Odd(a) != Odd(b))
  {
  }

  /** One round of the loops over a chain: `b` are the bytes to sum, `len` the length whose
      parity decides about the swap. */
  method AddLink(m: Machine, acc: u16, swapped: bool, b: seq<byte>, len: u16, address: nat, ghost done: seq<byte>)
    returns (acc': u16, swapped': bool)
    requires |b| < 0x1_0000 && Summed(m, acc, swapped, done) && swapped == Odd(|done|)
    ensures Summed(m, acc', swapped', done + b) && swapped' == (swapped != Odd(len))
    ensures |b| == len ==> swapped' == Odd(|done + b|)
  {
    LinkSummed(m, acc, swapped, done, b);
    OddSum(|done|, |b|);
    var c := Standard(m, b, address);
    acc', swapped' := Fold(acc + c), swapped;
    if len % 2 != 0 {
      SwapCanonical(done + b, m.bigEndian != swapped);
      swapped' := !swapped';
      acc' := SwapBytes(acc');
    }
  }

  /** Behind the loops: `if (swapped) acc = SWAP_BYTES_IN_WORD(acc)`. */
  method Unswap(m: Machine, acc: u16, swapped: bool, ghost done: seq<byte>) returns (r: u16)
    requires Summed(m, acc, swapped, done)
    ensures r == Canonical(ByteSum(done, m.bigEndian))
  {
    r := acc;
    if swapped {
      SwapCanonical(done, !m.bigEndian);
      r := SwapBytes(acc);
    }
  }

  lemma {:induction false} FieldIs(m: Machine, b: seq<byte>)
    ensures Field(m, b) == Complement(Canonical(ByteSum(b, m.bigEndian)))
  {
    HostSum(m.bigEndian, b);
    HtonsOfComplement(m.bigEndian, Rfc1071(b));
  }

  /** inet_chksum_pbuf */
  method ChksumPbuf(m: Machine, mem: Memory, p: Ptr, address: Ptr -> nat, ghost ps: seq<Ptr>) returns (c: u16)
    requires mem.Chain(p, ps)
    ensures c == Field(m, Flat(mem.node, ps))
  {
    var acc: u16, swapped := 0, false;
    acc, swapped := SumChain(m, mem, p, acc, address, ps, []);
    assert [] + Flat(mem.node, ps) == Flat(mem.node, ps);
    acc := Unswap(m, acc, swapped, Flat(mem.node, ps));
    FieldIs(m, Flat(mem.node, ps));
    c := Complement(acc);
  }

  /** The loop of inet_chksum_pbuf and inet_cksum_pseudo_base. */
  method SumChain(m: Machine, mem: Memory, p: Ptr, acc0: u16, address: Ptr -> nat, ghost ps: seq<Ptr>, ghost header: seq<byte>)
    returns (acc: u16, swapped: bool)
    requires mem.Chain(p, ps) && Summed(m, acc0, false, header) && !Odd(|header|)
    ensures Summed(m, acc, swapped, header + Flat(mem.node, ps))
  {
    acc, swapped := acc0, false;
    var q := p;
    ghost var i, done := 0, header;
    ListNodes(mem.next, p, ps);
    while q != NULL
      invariant 0 <= i <= |ps| && q == Head(ps[i..]) && (q == NULL <==> i == |ps|)
      invariant done == header + Flat(mem.node, ps[..i]) && Summed(m, acc, swapped, done) && swapped == Odd(|done|)
      decreases |ps| - i
    {
      NextLink(mem, p, ps, i);
      acc, swapped := AddLink(m, acc, swapped, BytesOf(mem.node[q]), mem.node[q].len, address(q), done);
      done := done + BytesOf(mem.node[q]);
      q := mem.next[q];
      i := i + 1;
    }
    assert ps[..|ps|] == ps;
  }

  // ---- the pseudo header -----------------------------------------------------------------

  /** The words of the pseudo header of section 3.1 of RFC 793, for addresses of any length. */
  ghost function PseudoHeader(source: seq<byte>, destination: seq<byte>, proto: byte, length: u16): seq<byte> {
    source + destination + Wire(proto) + Wire(length)
  }

  /** The first steps of inet_chksum_pseudo and, with addresses of 16 bytes, ip6_chksum_pseudo. */
  method SumAddresses(m: Machine, source: seq<byte>, destination: seq<byte>) returns (acc: u16)
    requires |source| == |destination| && (|source| == 4 || |source| == 16)
    ensures Summed(m, acc, false, source + destination)
  {
    var sum: u32, part := 0, 0;
    var parts := |source| / 4;
    assert source[0..] == source && destination[0..] == destination;
    ByteSumBound(source, m.bigEndian);
    ByteSumBound(destination, m.bigEndian);
    ghost var total := ByteSum(source, m.bigEndian) + ByteSum(destination, m.bigEndian);
    assert total < 0x10_0000;
    while part < parts
      invariant 0 <= part <= parts
      invariant sum + Rest(m, source, 4 * part) + Rest(m, destination, 4 * part) == total
    {
      sum := AddHalves(m, source, 4 * part, sum);
      sum := AddHalves(m, destination, 4 * part, sum);
      part := part + 1;
    }
    RestEnd(m, source, 4 * part);
    RestEnd(m, destination, 4 * part);
    acc := FoldBoth(sum);
    ByteSumConcat(source, destination, m.bigEndian);
  }

  method FoldBoth(sum: u32) returns (acc: u16)
    ensures acc == Canonical(sum)
  {
    FoldTwice(sum);
    acc := Fold(Fold(sum));
  }

  function LowHalf(v: u32): u16 {
    v % 0x1_0000
  }

  function HighHalf(v: u32): u16 {
    v / 0x1_0000
  }

  lemma {:induction false} Halves(m: Machine, b: seq<byte>, k: nat)
    requires k + 4 <= |b|
    ensures var part := Load32(m.bigEndian, b, k);
            LowHalf(part) + HighHalf(part) == Load16(m.bigEndian, b, k) + Load16(m.bigEndian, b, k + 2)
  {
    var first: int, second: int := Load16(m.bigEndian, b, k), Load16(m.bigEndian, b, k + 2);
    if m.bigEndian { HalvesOf(first, second); } else { HalvesOf(second, first); }
  }

  lemma {:induction false} HalvesOf(high: u16, low: u16)
    ensures LowHalf(0x1_0000 * (high as int) + low) == low && HighHalf(0x1_0000 * (high as int) + low) == high
  {
  }

  /** Adds the low and the high half of a 32-bit part of an address. */
  method AddHalves(m: Machine, b: seq<byte>, k: nat, sum: u32) returns (r: u32)
    requires k + 4 <= |b| && sum + Rest(m, b, k) < 0x1_0000_0000
    ensures r + Rest(m, b, k + 4) == sum + Rest(m, b, k)
  {
    RestWord(m, b, k);
    RestWord(m, b, k + 2);
    Halves(m, b, k);
    var part := Load32(m.bigEndian, b, k);
    var low, high := LowHalf(part), HighHalf(part);
    r := Add32(sum, low);
    r := Add32(r, high);
  }

  /** The end of both pseudo header checksums: protocol and length are added. */
  method FinishPseudo(m: Machine, acc: u16, proto: byte, length: u16,
                      ghost source: seq<byte>, ghost destination: seq<byte>, ghost data: seq<byte>) returns (c: u16)
    requires acc == Canonical(ByteSum(source + destination + data, m.bigEndian))
    requires !Odd(|source + destination|)
    ensures c == Field(m, PseudoHeader(source, destination, proto, length) + data)
  {
    PseudoSum(m, source, destination, proto, length, data);
    FieldIs(m, PseudoHeader(source, destination, proto, length) + data);
    CanonicalPlus(ByteSum(source + destination + data, m.bigEndian), Htons(m.bigEndian, proto) + Htons(m.bigEndian, length));
    var sum := Add32(acc, Htons(m.bigEndian, proto));
    sum := Add32(sum, Htons(m.bigEndian, length));
    sum := FoldBoth(sum);
    c := Complement(sum);
  }

  lemma {:induction false} PseudoSum(m: Machine, source: seq<byte>, destination: seq<byte>, proto: byte, length: u16, data: seq<byte>)
    requires !Odd(|source + destination|)
    ensures ByteSum(PseudoHeader(source, destination, proto, length) + data, m.bigEndian)
         == ByteSum(source + destination + data, m.bigEndian) + Htons(m.bigEndian, proto) + Htons(m.bigEndian, length)
  {
    EvenPiece(source + destination, Wire(proto), Wire(length) + data, m.bigEndian);
    EvenPiece(source + destination, Wire(length), data, m.bigEndian);
    var a := source + destination;
    assert a + Wire(proto) + (Wire(length) + data) == PseudoHeader(source, destination, proto, length) + data;
    assert a + (Wire(length) + data) == a + Wire(length) + data;
    WireSum(proto, m.bigEndian);
    WireSum(length, m.bigEndian);
  }

  lemma {:induction false} EvenPiece(a: seq<byte>, w: seq<byte>, b: seq<byte>, hi: bool)
    requires !Odd(|a|) && !Odd(|w|)
    ensures ByteSum(a + w + b, hi) == ByteSum(a + b, hi) + ByteSum(w, hi)
  {
    ByteSumConcat(a + w, b, hi);
    ByteSumConcat(a, w, hi);
    ByteSumConcat(a, b, hi);
  }

  /** inet_chksum_pseudo */
  method ChksumPseudo(m: Machine, mem: Memory, p: Ptr, proto: byte, length: u16, source: seq<byte>, destination: seq<byte>,
                      address: Ptr -> nat, ghost ps: seq<Ptr>) returns (c: u16)
    requires mem.Chain(p, ps) && |source| == |destination| && (|source| == 4 || |source| == 16)
    ensures c == Field(m, PseudoHeader(source, destination, proto, length) + Flat(mem.node, ps))
  {
    var acc := SumAddresses(m, source, destination);
    var swapped;
    acc, swapped := SumChain(m, mem, p, acc, address, ps, source + destination);
    acc := Unswap(m, acc, swapped, source + destination + Flat(mem.node, ps));
    c := FinishPseudo(m, acc, proto, length, source, destination, Flat(mem.node, ps));
  }

  /** inet_chksum_pseudo_partial: only the first `chksumLen` bytes of the chain are summed.  The
      precondition is the assertion behind the first link. */
  method ChksumPseudoPartial(m: Machine, mem: Memory, p: Ptr, proto: byte, length: u16, chksumLen: u16,
                             source: seq<byte>, destination: seq<byte>, address: Ptr -> nat, ghost ps: seq<Ptr>) returns (c: u16)
    requires mem.Chain(p, ps) && |source| == |destination| && (|source| == 4 || |source| == 16)
    requires ps != [] ==> chksumLen < mem.node[ps[0]].len + 0x7fff
    ensures c == Field(m, PseudoHeader(source, destination, proto, length) + PrefixOf(Flat(mem.node, ps), chksumLen))
  {
    var acc := SumAddresses(m, source, destination);
    var swapped;
    acc, swapped := SumPrefix(m, mem, p, chksumLen, acc, address, ps, source + destination);
    ghost var data := PrefixOf(Flat(mem.node, ps), chksumLen);
    acc := Unswap(m, acc, swapped, source + destination + data);
    c := FinishPseudo(m, acc, proto, length, source, destination, data);
  }

  lemma {:induction false} PrefixRound(header: seq<byte>, f: seq<byte>, b: seq<byte>, n: nat)
    requires |PrefixOf(f, n)| < n
    ensures var k := if |b| > n - |f| then n - |f| else |b|;
            && 0 <= k <= |b| && PrefixOf(f, n) == f && |PrefixOf(f + b, n)| == |f| + k
            && header + PrefixOf(f + b, n) == header + f + b[..k]
  {
    var k := if |b| > n - |f| then n - |f| else |b|;
    assert PrefixOf(f + b, n) == f + b[..k];
    assert header + (f + b[..k]) == header + f + b[..k];
  }

  lemma {:induction false} PrefixEnd(nodes: Nodes, ps: seq<Ptr>, i: nat, n: nat)
    requires AllIn(nodes, ps) && i <= |ps| && (i == |ps| || n <= |PrefixOf(Flat(nodes, ps[..i]), n)|)
    ensures PrefixOf(Flat(nodes, ps), n) == PrefixOf(Flat(nodes, ps[..i]), n)
  {
    if i == |ps| {
      assert ps[..i] == ps;
    } else {
      FlatSplit(nodes, ps, i);
    }
  }

  /** One round of the loop of inet_cksum_pseudo_partial_base: `b` are the bytes of the link. */
  method AddPart(m: Machine, acc: u16, swapped: bool, b: seq<byte>, left: u16, address: nat,
                 ghost n: nat, ghost header: seq<byte>, ghost f: seq<byte>) returns (acc': u16, swapped': bool, left': u16)
    requires |b| < 0x1_0000 && 0 < left && left == n - |PrefixOf(f, n)|
    requires Summed(m, acc, swapped, header + PrefixOf(f, n)) && swapped == Odd(|header + f|)
    ensures Summed(m, acc', swapped', header + PrefixOf(f + b, n)) && left' == n - |PrefixOf(f + b, n)|
    ensures left' == if |b| < left then left - |b| else 0
    ensures left' > 0 ==> swapped' == Odd(|header + (f + b)|)
  {
    PrefixRound(header, f, b, n);
    var chklen: u16 := |b|;
    if chklen > left { chklen := left; }
    acc', swapped' := AddLink(m, acc, swapped, b[..chklen], |b|, address, header + f);
    left' := left - chklen;
  }

  /** The loop of inet_cksum_pseudo_partial_base.  The swap behind the last link goes by the
      length of the whole link, not of the part that was summed: this is undone by `swapped`. */
  method SumPrefix(m: Machine, mem: Memory, p: Ptr, chksumLen: u16, acc0: u16, address: Ptr -> nat,
                   ghost ps: seq<Ptr>, ghost header: seq<byte>) returns (acc: u16, swapped: bool)
    requires mem.Chain(p, ps) && Summed(m, acc0, false, header) && !Odd(|header|)
    requires ps != [] ==> chksumLen < mem.node[ps[0]].len + 0x7fff
    ensures Summed(m, acc, swapped, header + PrefixOf(Flat(mem.node, ps), chksumLen))
  {
    acc, swapped := acc0, false;
    var q, left := p, chksumLen;
    ghost var i, f := 0, [];
    assert header + PrefixOf(f, chksumLen) == header;
    ListNodes(mem.next, p, ps);
    while q != NULL && left > 0
      invariant 0 <= i <= |ps| && q == Head(ps[i..]) && (q == NULL <==> i == |ps|)
      invariant f == Flat(mem.node, ps[..i]) && left == chksumLen - |PrefixOf(f, chksumLen)|
      invariant Summed(m, acc, swapped, header + PrefixOf(f, chksumLen))
      invariant left > 0 ==> swapped == Odd(|header + f|)
      invariant if i == 0 then left == chksumLen else left < 0x7fff
      decreases |ps| - i
    {
      NextLink(mem, p, ps, i);
      var b := BytesOf(mem.node[q]);
      acc, swapped, left := AddPart(m, acc, swapped, b, left, address(q), chksumLen, header, f);
      assert left < 0x7fff;
      f := f + b;
      q := mem.next[q];
      i := i + 1;
    }
    PrefixEnd(mem.node, ps, i, chksumLen);
  }
}
