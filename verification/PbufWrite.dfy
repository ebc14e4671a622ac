/** What the operations of lwip/core/pbuf.c that write payload bytes do to a chain.

    They overwrite some of its flat bytes and leave lengths, links and counts alone; the lemmas
    follow the loops of pbuf_take, pbuf_take_at and pbuf_copy link by link. */
module PbufWrite {
  import opened Bytes
  import opened Lists
  import opened PbufBytes
  import opened PbufMemory
  import opened PbufRead

  /** `x` replaces the bytes of `b` from `at` on. */
  function Splice(b: seq<byte>, at: nat, x: seq<byte>): (r: seq<byte>)
    requires at + |x| <= |b|
    ensures |r| == |b|
  {
    b[..at] + x + b[at + |x|..]
  }

  lemma {:induction false} SpliceAt(b: seq<byte>, at: nat, x: seq<byte>, i: nat)
    requires at + |x| <= |b| && i < |b|
    ensures Splice(b, at, x)[i] == if at <= i < at + |x| then x[i - at] else b[i]
  {
  }

  /** Nothing but payload bytes differ. */
  ghost predicate Rewrites(n: Node, n': Node) {
    && n' == n.(buffer := n'.buffer) && |n'.buffer| == |n.buffer|
    && n'.buffer[..n.payload] == n.buffer[..n.payload]
    && n'.buffer[n.payload + n.len..] == n.buffer[n.payload + n.len..]
  }

  lemma {:induction false} WriteRewrites(n0: Node, n: Node, at: nat, x: seq<byte>)
    requires Rewrites(n0, n) && at + |x| <= n.len
    ensures Rewrites(n0, Write(n, at, x))
  {
    var n', i := Write(n, at, x), n.payload + at;
    assert n'.buffer == n.buffer[..i] + x + n.buffer[i + |x|..];
    assert n'.buffer[..n.payload] == n.buffer[..n.payload];
    assert n'.buffer[n.payload + n.len..] == n.buffer[n.payload + n.len..];
  }

  /** The chain `ps` now carries `b`; only payload bytes of its pbufs have changed. */
  ghost predicate Overwritten(m: Nodes, m': Nodes, ps: seq<Ptr>, b: seq<byte>) {
    && m'.Keys == m.Keys && AllIn(m, ps) && AllIn(m', ps)
    && (forall p :: p in m && p !in ps ==> m'[p] == m[p])
    && (forall p :: p in ps ==> Rewrites(m[p], m'[p]))
    && Flat(m', ps) == b
  }

  lemma {:induction false} OverwrittenStart(m: Nodes, ps: seq<Ptr>)
    requires AllIn(m, ps)
    ensures Overwritten(m, m, ps, Flat(m, ps))
  {
  }

  lemma {:induction false} SameLengths(m: Nodes, m': Nodes, ps: seq<Ptr>)
    requires AllIn(m, ps) && AllIn(m', ps) && forall p :: p in ps ==> m'[p].len == m[p].len
    ensures |Flat(m', ps)| == |Flat(m, ps)|
    decreases |ps|
  {
    if ps != [] { SameLengths(m, m', ps[1..]); }
  }

  lemma {:induction false} OverwrittenLengths(m: Nodes, m': Nodes, ps: seq<Ptr>, b: seq<byte>, k: nat)
    requires Overwritten(m, m', ps, b) && k <= |ps|
    ensures |Flat(m', ps[..k])| == |Flat(m, ps[..k])| && |Flat(m', ps)| == |Flat(m, ps)| == |b|
  {
    SameLengths(m, m', ps[..k]);
    SameLengths(m, m', ps);
  }

  /** The `tot_len` fields stay right. */
  lemma {:induction false} OverwrittenTotals(m: Nodes, m': Nodes, ps: seq<Ptr>, b: seq<byte>)
    requires Overwritten(m, m', ps, b) && Totals(m, ps)
    ensures Totals(m', ps)
  {
    forall k | 0 <= k < |ps| ensures TotalAt(m', ps, k) {
      assert TotalAt(m, ps, k);
      SameLengths(m, m', ps[k..]);
    }
  }

  /** Writing `x` at `at` in link `k`. */
  lemma {:induction false} WriteInFlat(m: Nodes, ps: seq<Ptr>, k: nat, at: nat, x: seq<byte>, o: nat)
    requires AllIn(m, ps) && Distinct(ps) && k < |ps| && at + |x| <= m[ps[k]].len && o == |Flat(m, ps[..k])| + at
    ensures o + |x| <= |Flat(m, ps)|
    ensures Flat(m[ps[k] := Write(m[ps[k]], at, x)], ps) == Splice(Flat(m, ps), o, x)
  {
    var m' := m[ps[k] := Write(m[ps[k]], at, x)];
    FlatSplit(m, ps, k);
    FlatStep(m, ps, k);
    FlatSplit(m', ps, k);
    FlatStep(m', ps, k);
    FlatFrame(m, m', ps[..k]);
    FlatFrame(m, m', ps[k + 1..]);
    SpliceInside(Flat(m, ps[..k]), BytesOf(m[ps[k]]), Flat(m, ps[k + 1..]), at, x, o);
  }

  lemma {:induction false} SpliceInside(a: seq<byte>, b: seq<byte>, c: seq<byte>, at: nat, x: seq<byte>, o: nat)
    requires at + |x| <= |b| && o == |a| + at
    ensures Splice(a + (b + c), o, x) == a + (Splice(b, at, x) + c)
  {
  }

  /** One step of a loop that overwrites a chain. */
  lemma {:induction false} OverwriteStep(m: Nodes, m': Nodes, ps: seq<Ptr>, b: seq<byte>, k: nat, at: nat, x: seq<byte>, o: nat)
    requires Overwritten(m, m', ps, b) && Distinct(ps) && k < |ps| && at + |x| <= m[ps[k]].len && o == |Flat(m, ps[..k])| + at
    ensures ps[k] in m' && m'[ps[k]].len == m[ps[k]].len && o + |x| <= |b|
    ensures Overwritten(m, m'[ps[k] := Write(m'[ps[k]], at, x)], ps, Splice(b, o, x))
  {
    OverwrittenLengths(m, m', ps, b, k);
    WriteInFlat(m', ps, k, at, x, o);
    WriteRewrites(m[ps[k]], m'[ps[k]], at, x);
  }

  /** Bytes written one after the other. */
  lemma {:induction false} SpliceTwice(b: seq<byte>, at: nat, x: seq<byte>, y: seq<byte>)
    requires at + |x| + |y| <= |b|
    ensures Splice(Splice(b, at, x), at + |x|, y) == Splice(b, at, x + y)
  {
  }

  lemma {:induction false} SpliceNothing(b: seq<byte>, at: nat)
    requires at <= |b|
    ensures Splice(b, at, []) == b
  {
  }

  /** Overwriting the end of a chain. */
  lemma {:induction false} OverwriteRest(m: Nodes, m': Nodes, m'': Nodes, ps: seq<Ptr>, k: nat, b: seq<byte>, x: seq<byte>)
    requires Overwritten(m, m', ps, b) && Distinct(ps) && k <= |ps| && |Flat(m, ps[..k])| + |x| <= |b|
    requires AllIn(m', ps[k..]) && |x| <= |Flat(m', ps[k..])|
    requires Overwritten(m', m'', ps[k..], Splice(Flat(m', ps[k..]), 0, x))
    ensures Overwritten(m, m'', ps, Splice(b, |Flat(m, ps[..k])|, x))
  {
    OverwrittenLengths(m, m', ps, b, k);
    RestBytes(m', m'', ps, k, x);
    forall p | p in ps ensures Rewrites(m[p], m''[p]) {
      if p in ps[k..] { RewritesTwice(m[p], m'[p], m''[p]); }
    }
  }

  lemma {:induction false} RestBytes(m: Nodes, m': Nodes, ps: seq<Ptr>, k: nat, x: seq<byte>)
    requires AllIn(m, ps) && AllIn(m', ps) && Distinct(ps) && k <= |ps| && AllIn(m, ps[k..]) && |x| <= |Flat(m, ps[k..])|
    requires Overwritten(m, m', ps[k..], Splice(Flat(m, ps[k..]), 0, x))
    ensures |Flat(m, ps[..k])| + |x| <= |Flat(m, ps)|
    ensures Flat(m', ps) == Splice(Flat(m, ps), |Flat(m, ps[..k])|, x)
  {
    FlatSplit(m, ps, k);
    FlatSplit(m', ps, k);
    FrontStays(m, m', ps, k);
    SpliceBehind(Flat(m, ps[..k]), Flat(m, ps[k..]), x);
  }

  lemma {:induction false} FrontStays(m: Nodes, m': Nodes, ps: seq<Ptr>, k: nat)
    requires AllIn(m, ps) && AllIn(m', ps) && Distinct(ps) && k <= |ps|
    requires m'.Keys == m.Keys && forall p :: p in m && p !in ps[k..] ==> m'[p] == m[p]
    ensures Flat(m', ps[..k]) == Flat(m, ps[..k])
  {
    forall p | p in ps[..k] ensures p !in ps[k..] {}
    FlatFrame(m, m', ps[..k]);
  }

  lemma {:induction false} SpliceBehind(f: seq<byte>, r: seq<byte>, x: seq<byte>)
    requires |x| <= |r|
    ensures Splice(f + r, |f|, x) == f + Splice(r, 0, x)
  {
  }

  lemma {:induction false} RewritesTwice(n: Node, n': Node, n'': Node)
    requires Rewrites(n, n') && Rewrites(n', n'')
    ensures Rewrites(n, n'')
  {
  }

  // ---- rounds of pbuf_take --------------------------------------------------------------

  /** `c` bytes of `data` were written to the links before `i`. */
  ghost predicate Taking(m0: Nodes, m: Nodes, ps: seq<Ptr>, data: seq<byte>, i: nat, c: nat)
    requires AllIn(m0, ps)
  {
    && i <= |ps| && c <= |data| <= |Flat(m0, ps)|
    && Overwritten(m0, m, ps, Splice(Flat(m0, ps), 0, data[..c]))
    && (c < |data| ==> c == |Flat(m0, ps[..i])|)
  }

  lemma {:induction false} TakeStart(m: Nodes, ps: seq<Ptr>, data: seq<byte>)
    requires AllIn(m, ps) && |data| <= |Flat(m, ps)|
    ensures Taking(m, m, ps, data, 0, 0)
  {
    OverwrittenStart(m, ps);
    SpliceNothing(Flat(m, ps), 0);
    assert data[..0] == [] && ps[..0] == [];
  }

  lemma {:induction false} TakeRound(m0: Nodes, m: Nodes, ps: seq<Ptr>, data: seq<byte>, i: nat, c: nat)
    requires AllIn(m0, ps) && Distinct(ps) && Taking(m0, m, ps, data, i, c) && c < |data|
    ensures i < |ps| && ps[i] in m && m[ps[i]].len == m0[ps[i]].len
  {
    assert ps[..|ps|] == ps;
  }

  /** `x` are the bytes that go to link `i`; then `c'` bytes are written. */
  lemma {:induction false} TakeLink(m0: Nodes, m: Nodes, ps: seq<Ptr>, data: seq<byte>, i: nat, q: Ptr, c: nat, x: seq<byte>, i': nat, c': nat)
    requires AllIn(m0, ps) && Distinct(ps) && Taking(m0, m, ps, data, i, c) && c < |data|
    requires i < |ps| && q == ps[i] && i' == i + 1 && c' == c + Min(m0[q].len, |data| - c) && x == data[c..c']
    ensures q in m && |x| <= m[q].len
    ensures Taking(m0, m[q := Write(m[q], 0, x)], ps, data, i', c')
  {
    var b := Flat(m0, ps);
    OverwriteStep(m0, m, ps, Splice(b, 0, data[..c]), i, 0, x, c);
    TakePrefix(b, data, c, |x|, x);
    assert c' < |data| ==> c' == |Flat(m0, ps[..i'])| by { FlatStep(m0, ps, i); }
  }

  lemma {:induction false} TakePrefix(b: seq<byte>, data: seq<byte>, c: nat, n: nat, x: seq<byte>)
    requires c + n <= |data| <= |b| && x == data[c..c + n]
    ensures Splice(Splice(b, 0, data[..c]), c, x) == Splice(b, 0, data[..c + n])
  {
    SpliceTwice(b, 0, data[..c], x);
    assert data[..c] + x == data[..c + n];
  }

  // ---- pbuf_take_at ------------------------------------------------------------------------

  /** The part of `data` that goes to link `k`, from `at` on. */
  lemma {:induction false} TakeAtFirst(m: Memory, p: Ptr, ps: seq<Ptr>, data: seq<byte>, offset: nat, k: nat, at: nat, x: seq<byte>)
    requires m.Chain(p, ps) && SkippedTo(m, ps, offset, k, at) && k < |ps| && offset + |data| <= |Flat(m.node, ps)|
    requires x == data[..Min(m.node[ps[k]].len - at, |data|)]
    ensures Overwritten(m.node, m.node[ps[k] := Write(m.node[ps[k]], at, x)], ps, Splice(Flat(m.node, ps), offset, x))
  {
    ListDistinct(m.next, p, ps);
    OverwrittenStart(m.node, ps);
    OverwriteStep(m.node, m.node, ps, Flat(m.node, ps), k, at, x, offset);
  }

  /** What is left goes to the links behind it. */
  lemma {:induction false} TakeAtRest(m: Memory, m': Memory, p: Ptr, ps: seq<Ptr>, offset: nat, k: nat, at: nat, x: seq<byte>, n: nat)
    requires m.Chain(p, ps) && SkippedTo(m, ps, offset, k, at) && k < |ps| && offset + |x| + n <= |Flat(m.node, ps)| && 0 < n
    requires ps[k] in m.node && |x| == m.node[ps[k]].len - at && Totals(m.node, ps) && m'.next == m.next
    requires Overwritten(m.node, m'.node, ps, Splice(Flat(m.node, ps), offset, x))
    ensures k + 1 < |ps| && ps[k] in m.next && m.next[ps[k]] == ps[k + 1] && m'.Chain(ps[k + 1], ps[k + 1..]) && TotalAt(m'.node, ps[k + 1..], 0)
    ensures |Flat(m'.node, ps[k + 1..])| == |Flat(m.node, ps)| - (offset + |x|)
    ensures offset + |x| == |Flat(m.node, ps[..k + 1])|
  {
    ListSuffix(m.next, p, ps, k + 1);
    NextLink(m, p, ps, k);
    FlatSplit(m.node, ps, k + 1);
    OverwrittenTotals(m.node, m'.node, ps, Splice(Flat(m.node, ps), offset, x));
    TotalsSuffix(m'.node, ps, k + 1);
    SameLengths(m.node, m'.node, ps[k + 1..]);
  }

  lemma {:induction false} TakeAtEnd(m: Nodes, m': Nodes, m'': Nodes, ps: seq<Ptr>, k: nat, offset: nat, x: seq<byte>, y: seq<byte>, data: seq<byte>)
    requires |x| <= |data| && x == data[..|x|] && y == data[|x|..]
    requires AllIn(m, ps) && Distinct(ps) && k <= |ps| && offset + |x| == |Flat(m, ps[..k])| && offset + |x| + |y| <= |Flat(m, ps)|
    requires Overwritten(m, m', ps, Splice(Flat(m, ps), offset, x)) && AllIn(m', ps[k..]) && |y| <= |Flat(m', ps[k..])|
    requires Overwritten(m', m'', ps[k..], Splice(Flat(m', ps[k..]), 0, y))
    ensures Overwritten(m, m'', ps, Splice(Flat(m, ps), offset, data))
  {
    OverwriteRest(m, m', m'', ps, k, Splice(Flat(m, ps), offset, x), y);
    SpliceTwice(Flat(m, ps), offset, x, y);
    assert x + y == data;
  }

  // ---- pbuf_copy -------------------------------------------------------------------------------

  ghost predicate NoEmptyLinks(m: Nodes, ps: seq<Ptr>)
    requires AllIn(m, ps)
  {
    forall i :: 0 <= i < |ps| ==> 0 < m[ps[i]].len
  }

  /** A packet that ends where its first `tot_len` says: the chain may be copied. */
  ghost predicate Packet(m: Memory, p: Ptr, ps: seq<Ptr>) {
    m.Chain(p, ps) && |Flat(m.node, ps)| < 0x1_0000 && Totals(m.node, ps) && NoEmptyLinks(m.node, ps)
  }

  lemma {:induction false} TotalOfPacket(m: Memory, p: Ptr, ps: seq<Ptr>)
    requires Packet(m, p, ps)
    ensures p == NULL <==> ps == []
    ensures p != NULL ==> p in m.node && p == ps[0] && m.node[p].totLen == |Flat(m.node, ps)|
  {
    if ps != [] {
      assert TotalAt(m.node, ps, 0) && ps[0..] == ps;
    }
  }

  /** Place `c` of the chain is at offset `o` in link `i`. */
  ghost predicate Stands(m: Nodes, ps: seq<Ptr>, c: nat, i: nat, o: nat)
    requires AllIn(m, ps)
  {
    i <= |ps| && c == |Flat(m, ps[..i])| + o && if i < |ps| then o < m[ps[i]].len else o == 0
  }

  lemma {:induction false} StandsInside(m: Nodes, ps: seq<Ptr>, c: nat, i: nat, o: nat, n: nat)
    requires AllIn(m, ps) && Stands(m, ps, c, i, o) && i < |ps| && o + n <= m[ps[i]].len
    ensures c + n <= |Flat(m, ps)| && Flat(m, ps)[c..c + n] == BytesOf(m[ps[i]])[o..o + n]
  {
    FlatSplit(m, ps, i);
    FlatStep(m, ps, i);
    InMiddle(Flat(m, ps[..i]), BytesOf(m[ps[i]]), Flat(m, ps[i + 1..]), o, n);
  }

  lemma {:induction false} StandsAtEnd(m: Nodes, ps: seq<Ptr>, c: nat, i: nat, o: nat)
    requires AllIn(m, ps) && Stands(m, ps, c, i, o)
    ensures i == |ps| ==> c == |Flat(m, ps)|
    ensures i < |ps| ==> c < |Flat(m, ps)|
  {
    if i < |ps| { StandsInside(m, ps, c, i, o, m[ps[i]].len - o); } else { assert ps[..i] == ps; }
  }

  lemma {:induction false} InMiddle(a: seq<byte>, b: seq<byte>, c: seq<byte>, o: nat, n: nat)
    requires o + n <= |b|
    ensures (a + (b + c))[|a| + o..|a| + o + n] == b[o..o + n]
  {
  }

  lemma {:induction false} StandsStart(m: Nodes, ps: seq<Ptr>)
    requires AllIn(m, ps) && NoEmptyLinks(m, ps)
    ensures Stands(m, ps, 0, 0, 0)
  {
    assert ps[..0] == [];
  }

  /** After `n` more bytes of a link, the walk stays in it or goes on to the next one. */
  lemma {:induction false} StandsNext(m: Nodes, ps: seq<Ptr>, c: nat, i: nat, o: nat, c': nat, i': nat, o': nat)
    requires AllIn(m, ps) && NoEmptyLinks(m, ps) && Stands(m, ps, c, i, o) && i < |ps| && c <= c' && o + (c' - c) <= m[ps[i]].len
    requires if o + (c' - c) == m[ps[i]].len then i' == i + 1 && o' == 0 else i' == i && o' == o + (c' - c)
    ensures Stands(m, ps, c', i', o')
  {
    FlatStep(m, ps, i);
  }

  /** The last link is the only one whose `len` and `tot_len` agree. */
  lemma {:induction false} NoQueue(m: Memory, p: Ptr, ps: seq<Ptr>, i: nat)
    requires Packet(m, p, ps) && i < |ps|
    ensures ps[i] in m.next && ps[i] in m.node && (m.node[ps[i]].len == m.node[ps[i]].totLen ==> m.next[ps[i]] == NULL)
  {
    NextLink(m, p, ps, i);
    assert TotalAt(m.node, ps, i);
    FlatSplit(m.node, ps, i);
    FlatStep(m.node, ps, i);
    if i + 1 < |ps| { FlatStep(m.node, ps, i + 1); }
  }

  /** The first `c` bytes of `b` were copied to the chain `ts`. */
  ghost predicate Copied(m: Nodes, m': Nodes, ts: seq<Ptr>, b: seq<byte>, c: nat)
    requires AllIn(m, ts)
  {
    c <= |b| <= |Flat(m, ts)| && Overwritten(m, m', ts, Splice(Flat(m, ts), 0, b[..c]))
  }

  lemma {:induction false} CopiedStart(m: Nodes, ts: seq<Ptr>, b: seq<byte>)
    requires AllIn(m, ts) && |b| <= |Flat(m, ts)|
    ensures Copied(m, m, ts, b, 0)
  {
    OverwrittenStart(m, ts);
    SpliceNothing(Flat(m, ts), 0);
    assert b[..0] == [];
  }

  lemma {:induction false} CopiedNext(m: Nodes, m': Nodes, ts: seq<Ptr>, b: seq<byte>, c: nat, j: nat, o: nat, q: Ptr, x: seq<byte>, c': nat)
    requires AllIn(m, ts) && Distinct(ts) && Copied(m, m', ts, b, c) && Stands(m, ts, c, j, o) && j < |ts| && q == ts[j]
    requires c <= c' <= |b| && x == b[c..c'] && o + |x| <= m[q].len
    ensures q in m' && o + |x| <= m'[q].len
    ensures Copied(m, m'[q := Write(m'[q], o, x)], ts, b, c')
  {
    OverwriteStep(m, m', ts, Splice(Flat(m, ts), 0, b[..c]), j, o, x, c);
    TakePrefix(Flat(m, ts), b, c, |x|, x);
  }
}
