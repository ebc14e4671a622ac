/** lwip/core/dns.c: writing a host name into a query, and reading names from an answer, whatever
    the links of the chain are. */
module Dns {
  import opened Bytes
  import opened Errors
  import opened Lists
  import opened PbufBytes
  import opened PbufMemory
  import opened PbufRead
  import opened PbufWrite
  import opened Pbuf
  import opened DnsName

  const SIZEOF_DNS_HDR: nat := 12

  /** A packet with exact lengths. */
  ghost predicate Packed(m: Memory, p: Ptr, ps: seq<Ptr>) {
    m.Chain(p, ps) && |Flat(m.node, ps)| < 0x1_0000 && Totals(m.node, ps)
  }

  // ---- reading -----------------------------------------------------------------------------

  /** The inner loop of dns_compare_name: `n` bytes from `at` on. */
  method CompareLabel(m: Memory, p: Ptr, at: u16, n: byte, query: nat -> byte, q: nat, ghost ps: seq<Ptr>) returns (same: bool)
    requires Packed(m, p, ps) && at <= |Flat(m.node, ps)|
    ensures same <==> LabelMatches(Flat(m.node, ps), at, n, query, q)
  {
    ghost var b := Flat(m.node, ps);
    var i := 0;
    while i < n
      invariant 0 <= i <= n && LabelMatches(b, at, i, query, q)
    {
      if at + i > 0xFFFF { return false; }
      var c := TryGetAt(m, p, at + i, ps);
      if c < 0 { return false; }
      LabelGrows(b, at, i, query, q);
      if ToLower(query(q + i)) != ToLower(c) {
        Mismatch(b, at, n, query, q, i);
        return false;
      }
      i := i + 1;
    }
    return true;
  }

  lemma {:induction false} LabelGrows(b: seq<byte>, at: nat, i: nat, query: nat -> byte, q: nat)
    requires LabelMatches(b, at, i, query, q) && at + i < |b|
    ensures LabelMatches(b, at, i + 1, query, q) <==> ToLower(query(q + i)) == ToLower(b[at + i])
  {
    assert b[at..at + i + 1] == b[at..at + i] + [b[at + i]];
    assert b[at..at + i + 1][i] == b[at + i];
  }

  lemma {:induction false} Mismatch(b: seq<byte>, at: nat, n: nat, query: nat -> byte, q: nat, i: nat)
    requires i < n && at + i < |b| && ToLower(query(q + i)) != ToLower(b[at + i])
    ensures !LabelMatches(b, at, n, query, q)
  {
    if at + n <= |b| { assert b[at..at + n][i] == b[at + i]; }
  }

  /** dns_compare_name; `query` is the memory from the host name on. */
  method CompareName(m: Memory, p: Ptr, query: nat -> byte, start: u16, ghost ps: seq<Ptr>) returns (r: u16)
    requires Packed(m, p, ps)
    ensures r == CompareFrom(Flat(m.node, ps), start, query, 0)
  {
    ghost var b := Flat(m.node, ps);
    var at: u16, q := start, 0;
    while true
      invariant 0 <= q && CompareFrom(b, start, query, 0) == CompareFrom(b, at, query, q)
      decreases |b| - at
    {
      var n := TryGetAt(m, p, at, ps);
      if n < 0 || at == 0xFFFF { return ERROR; }
      if n >= 0xC0 { return ERROR; }
      var same := CompareLabel(m, p, at + 1, n, query, q, ps);
      if !same { return ERROR; }
      var next := TryGetAt(m, p, at + 1 + n, ps);
      if next < 0 { return ERROR; }
      ghost var at0, q0 := at, q;
      at, q := at + 1 + n, q + n + 1;
      CompareRound(b, at0, query, q0, at, q);
      if next == 0 { break; }
    }
    return Min(at + 1, ERROR);
  }

  /** dns_skip_name */
  method SkipName(m: Memory, p: Ptr, start: u16, ghost ps: seq<Ptr>) returns (r: u16)
    requires Packed(m, p, ps) && ps != []
    ensures r == if SkipFrom(Flat(m.node, ps), start) < 0xFFFF then SkipFrom(Flat(m.node, ps), start) else ERROR
  {
    ghost var b := Flat(m.node, ps);
    assert m.node[p].totLen == |b| by { assert TotalAt(m.node, ps, 0) && ps[0..] == ps; }
    var at: u16 := start;
    while true
      invariant SkipFrom(b, start) == SkipFrom(b, at)
      decreases |b| - at
    {
      var n := TryGetAt(m, p, at, ps);
      if n < 0 || at == 0xFFFF { return ERROR; }
      at := at + 1;
      if n >= 0xC0 { break; }
      if at + n >= m.node[p].totLen { return ERROR; }
      at := at + n;
      var next := TryGetAt(m, p, at, ps);
      if next < 0 { return ERROR; }
      if next == 0 { break; }
    }
    return if at == 0xFFFF then ERROR else at + 1;
  }

  // ---- writing ----------------------------------------------------------------------------------

  /** Behind the header the bytes `done` were written. */
  ghost predicate Wrote(m: Nodes, m': Nodes, ps: seq<Ptr>, done: seq<byte>)
    requires AllIn(m, ps)
  {
    SIZEOF_DNS_HDR + |done| <= |Flat(m, ps)| && Overwritten(m, m', ps, Splice(Flat(m, ps), SIZEOF_DNS_HDR, done))
  }

  lemma {:induction false} WroteStart(m: Nodes, ps: seq<Ptr>)
    requires AllIn(m, ps) && SIZEOF_DNS_HDR <= |Flat(m, ps)|
    ensures Wrote(m, m, ps, [])
  {
    OverwrittenStart(m, ps);
    SpliceNothing(Flat(m, ps), SIZEOF_DNS_HDR);
  }

  lemma {:induction false} WroteNext(m: Nodes, m': Nodes, m'': Nodes, ps: seq<Ptr>, done: seq<byte>, x: seq<byte>, at: nat)
    requires AllIn(m, ps) && AllIn(m', ps) && Wrote(m, m', ps, done) && at == SIZEOF_DNS_HDR + |done| && at + |x| <= |Flat(m', ps)|
    requires Overwritten(m', m'', ps, Splice(Flat(m', ps), at, x))
    ensures Wrote(m, m'', ps, done + x)
  {
    OverwrittenLengths(m, m', ps, Splice(Flat(m, ps), SIZEOF_DNS_HDR, done), 0);
    SpliceTwice(Flat(m, ps), SIZEOF_DNS_HDR, done, x);
    forall p | p in ps ensures Rewrites(m[p], m''[p]) { RewritesTwice(m[p], m'[p], m''[p]); }
  }

  lemma {:induction false} StillPacked(m: Memory, m': Memory, p: Ptr, ps: seq<Ptr>, done: seq<byte>)
    requires Packed(m, p, ps) && m' == m.(node := m'.node) && Wrote(m.node, m'.node, ps, done)
    ensures Packed(m', p, ps) && |Flat(m'.node, ps)| == |Flat(m.node, ps)|
  {
    var b := Splice(Flat(m.node, ps), SIZEOF_DNS_HDR, done);
    OverwrittenLengths(m.node, m'.node, ps, b, 0);
    OverwrittenTotals(m.node, m'.node, ps, b);
  }

  /** pbuf_put_at and pbuf_take_at as dns_send uses them. */
  method PutByte(pbufs: Pbufs, p: Ptr, at: u16, x: byte, ghost ps: seq<Ptr>, ghost m: Memory, ghost done: seq<byte>) returns (ghost done': seq<byte>)
    requires Packed(m, p, ps) && pbufs.mem == m.(node := pbufs.mem.node) && Wrote(m.node, pbufs.mem.node, ps, done)
    requires at == SIZEOF_DNS_HDR + |done| < |Flat(m.node, ps)|
    modifies pbufs
    ensures pbufs.mem == m.(node := pbufs.mem.node) && done' == done + [x] && Wrote(m.node, pbufs.mem.node, ps, done')
  {
    StillPacked(m, pbufs.mem, p, ps, done);
    ghost var m1 := pbufs.mem;
    done' := done + [x];
    pbufs.PutAt(p, at, x, ps);
    WroteNext(m.node, m1.node, pbufs.mem.node, ps, done, [x], at);
  }

  method PutBytes(pbufs: Pbufs, p: Ptr, at: u16, x: seq<byte>, ghost ps: seq<Ptr>, ghost m: Memory, ghost done: seq<byte>) returns (ghost done': seq<byte>)
    requires Packed(m, p, ps) && pbufs.mem == m.(node := pbufs.mem.node) && Wrote(m.node, pbufs.mem.node, ps, done)
    requires x != [] && at == SIZEOF_DNS_HDR + |done| && at + |x| <= |Flat(m.node, ps)|
    modifies pbufs
    ensures pbufs.mem == m.(node := pbufs.mem.node) && done' == done + x && Wrote(m.node, pbufs.mem.node, ps, done')
  {
    StillPacked(m, pbufs.mem, p, ps, done);
    ghost var m1 := pbufs.mem;
    done' := done + x;
    var _ := pbufs.TakeAt(p, x, at, ps);
    WroteNext(m.node, m1.node, pbufs.mem.node, ps, done, x, at);
  }

  /** The encoder in dns_send: behind the header the packet holds the encoded name, and nothing
      else is changed. */
  method EncodeName(pbufs: Pbufs, p: Ptr, name: seq<byte>, ghost ps: seq<Ptr>, ghost labels: seq<seq<byte>>) returns (queryIdx: u16)
    requires Packed(pbufs.mem, p, ps) && Name(labels) && name == CString(labels)
    requires SIZEOF_DNS_HDR + |Encoded(labels)| <= |Flat(pbufs.mem.node, ps)|
    modifies pbufs
    ensures pbufs.mem == old(pbufs.mem).(node := pbufs.mem.node)
    ensures Wrote(old(pbufs.mem).node, pbufs.mem.node, ps, Encoded(labels)) && queryIdx == SIZEOF_DNS_HDR + |Encoded(labels)|
  {
    ghost var m := pbufs.mem;
    WroteStart(m.node, ps);
    EncodingStart(labels, name);
    queryIdx := SIZEOF_DNS_HDR;
    var h: nat, more := 0, true;
    ghost var k: nat, done: seq<byte> := 0, [];
    while more
      invariant pbufs.mem == m.(node := pbufs.mem.node) && Wrote(m.node, pbufs.mem.node, ps, done)
      invariant k <= |labels| && (more <==> k < |labels|) && queryIdx == SIZEOF_DNS_HDR + |done|
      invariant if more then Encoding(labels, name, k, done, h) else Encoded(labels) == done + [0]
      decreases |labels| - k
    {
      queryIdx, h, more, done, k := EncodeLabel(pbufs, p, queryIdx, name, h, ps, m, labels, k, done);
    }
    done := PutByte(pbufs, p, queryIdx, 0, ps, m, done);
    queryIdx := queryIdx + 1;
  }

  /** One label: its length, then its bytes. */
  method EncodeLabel(pbufs: Pbufs, p: Ptr, queryIdx: u16, name: seq<byte>, h: nat,
                     ghost ps: seq<Ptr>, ghost m: Memory, ghost labels: seq<seq<byte>>, ghost k: nat, ghost done: seq<byte>)
    returns (queryIdx': u16, h': nat, more: bool, ghost done': seq<byte>, ghost k': nat)
    requires Packed(m, p, ps) && pbufs.mem == m.(node := pbufs.mem.node) && Wrote(m.node, pbufs.mem.node, ps, done)
    requires Encoding(labels, name, k, done, h) && queryIdx == SIZEOF_DNS_HDR + |done|
    requires SIZEOF_DNS_HDR + |Encoded(labels)| <= |Flat(m.node, ps)|
    modifies pbufs
    ensures pbufs.mem == m.(node := pbufs.mem.node) && Wrote(m.node, pbufs.mem.node, ps, done')
    ensures k' == k + 1 <= |labels| && (more <==> k' < |labels|) && queryIdx' == SIZEOF_DNS_HDR + |done'|
    ensures if more then Encoding(labels, name, k', done', h') else Encoded(labels) == done' + [0]
  {
    ghost var last := LabelInName(labels, name, k, done, h);
    var end := FindEnd(name, h, last);
    var part := name[h..end];
    done' := PutByte(pbufs, p, queryIdx, |part|, ps, m, done);
    done' := PutBytes(pbufs, p, queryIdx + 1, part, ps, m, done');
    queryIdx' := queryIdx + |part| + 1;
    more, k', h' := name[end] != 0, k + 1, end + 1;
    EncodingNext(labels, name, k, done, h, h', done', k');
  }

  /** `for (n = 0; *hostname != '.' && *hostname != 0; ++hostname)` */
  method FindEnd(name: seq<byte>, h: nat, ghost end: nat) returns (i: nat)
    requires h <= end < |name| && (name[end] == DOT || name[end] == 0) && forall j :: h <= j < end ==> name[j] != DOT && name[j] != 0
    ensures i == end
  {
    i := h;
    while name[i] != DOT && name[i] != 0
      invariant h <= i <= end
      decreases end - i
    {
      i := i + 1;
    }
  }

  /** What dns_send has written is found by dns_compare_name, for a host name in any letters, and
      skipped by dns_skip_name: both return the offset behind its terminator. */
  lemma {:induction false} WrittenNameIsFound(m: Nodes, m': Nodes, ps: seq<Ptr>, wire: seq<seq<byte>>, labels: seq<seq<byte>>, query: nat -> byte)
    requires AllIn(m, ps) && Name(wire) && Wrote(m, m', ps, Encoded(wire))
    requires Name(labels) && SameName(labels, wire) && Holds(query, 0, CString(labels))
    ensures AllIn(m', ps)
    ensures var b, end := Flat(m', ps), SIZEOF_DNS_HDR + |Encoded(wire)|;
            CompareFrom(b, SIZEOF_DNS_HDR, query, 0) == end && SkipFrom(b, SIZEOF_DNS_HDR) == end
  {
    var b, e := Flat(m', ps), Encoded(wire);
    assert b == Splice(Flat(m, ps), SIZEOF_DNS_HDR, e);
    assert b[SIZEOF_DNS_HDR..SIZEOF_DNS_HDR + |e|] == e;
    CompareFindsEncoded(b, SIZEOF_DNS_HDR, wire, labels, query, 0);
    SkipFindsEncoded(b, SIZEOF_DNS_HDR, wire);
  }
}
