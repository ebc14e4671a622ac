/** native/udp.c: datagrams travel through the queues with 12 bytes of addresses in front. */
module UdpFraming {
  import opened Bytes
  import opened Errors
  import opened InternetSum
  import opened Lists
  import opened PbufBytes
  import opened PbufMemory
  import opened PbufAlloc
  import opened PbufGraph
  import opened PbufRead
  import opened PbufWrite
  import opened PbufResize
  import opened PbufHeld
  import opened Pbuf

  /** struct udp_metadata_t */
  datatype Metadata = Metadata(sourceAddr: seq<byte>, destAddr: seq<byte>, sourcePort: u16, destPort: u16)

  ghost predicate Proper(md: Metadata) {
    |md.sourceAddr| == 4 && |md.destAddr| == 4
  }

  const SIZE: nat := 12

  /** The struct in memory: ports in the byte order of the machine. */
  function Frame(bigEndian: bool, md: Metadata): seq<byte> {
    md.sourceAddr + md.destAddr + Stored(bigEndian, md.sourcePort) + Stored(bigEndian, md.destPort)
  }

  function Stored(bigEndian: bool, v: u16): (b: seq<byte>)
    ensures |b| == 2
  {
    if bigEndian then [v / 0x100, v % 0x100] else [v % 0x100, v / 0x100]
  }

  function Loaded(bigEndian: bool, b: seq<byte>): u16
    requires |b| == 2
  {
    if bigEndian then Word(b[0], b[1]) else Word(b[1], b[0])
  }

  function Unframe(bigEndian: bool, b: seq<byte>): Metadata
    requires |b| == SIZE
  {
    Metadata(b[..4], b[4..8], Loaded(bigEndian, b[8..10]), Loaded(bigEndian, b[10..12]))
  }

  lemma {:induction false} LoadedStored(bigEndian: bool, v: u16)
    ensures Loaded(bigEndian, Stored(bigEndian, v)) == v
  {
  }

  lemma {:induction false} UnframeFrame(bigEndian: bool, md: Metadata)
    requires Proper(md)
    ensures |Frame(bigEndian, md)| == SIZE && Unframe(bigEndian, Frame(bigEndian, md)) == md
  {
    var b := Frame(bigEndian, md);
    LoadedStored(bigEndian, md.sourcePort);
    LoadedStored(bigEndian, md.destPort);
    assert b[..4] == md.sourceAddr && b[4..8] == md.destAddr;
    assert b[8..10] == Stored(bigEndian, md.sourcePort) && b[10..12] == Stored(bigEndian, md.destPort);
  }

  /** Both addresses come first, byte by byte, and then both ports in the order of the machine. */
  lemma {:induction false} FrameLayout(bigEndian: bool, md: Metadata)
    requires Proper(md)
    ensures var b := Frame(bigEndian, md);
            && |b| == SIZE && (forall i :: 0 <= i < 4 ==> b[i] == md.sourceAddr[i] && b[4 + i] == md.destAddr[i])
            && md.sourcePort == (if bigEndian then 0x100 * (b[8] as int) + b[9] else b[8] + 0x100 * (b[9] as int))
            && md.destPort == (if bigEndian then 0x100 * (b[10] as int) + b[11] else b[10] + 0x100 * (b[11] as int))
  {
  }

  // ---- one pbuf ---------------------------------------------------------------------------------

  /** A pbuf on its own that carries `b`. */
  ghost predicate Single(m: Memory, p: Ptr, b: seq<byte>) {
    m.Valid() && Carries(m, p, [p], b) && p in m.owners && 0 < m.owners[p]
  }

  lemma {:induction false} SingleIs(m: Memory, p: Ptr, b: seq<byte>)
    requires Single(m, p, b) && |b| < 0x1_0000
    ensures p != NULL && p in m.node && p in m.next && m.next[p] == NULL && b == BytesOf(m.node[p]) && m.node[p].len == m.node[p].totLen == |b|
    ensures TotalAt(m.node, [p], 0)
  {
    assert [p][1..] == [] && [p][0..] == [p] && p in [p];
    assert Flat(m.node, [p]) == BytesOf(m.node[p]);
    assert IsList(m.next, m.next[p], [p][1..]);
    assert TotalAt(m.node, [p], 0);
  }

  lemma {:induction false} SingleFrom(m: Memory, p: Ptr, b: seq<byte>)
    requires m.Valid() && p != NULL && p in m.next && m.next[p] == NULL && p in m.node && BytesOf(m.node[p]) == b && m.node[p].totLen == |b|
    requires p in m.owners && 0 < m.owners[p]
    ensures Single(m, p, b)
  {
    assert [p][1..] == [] && [p][0..] == [p];
    assert IsList(m.next, p, [p]);
    assert Flat(m.node, [p]) == b;
    assert TotalAt(m.node, [p], 0);
  }

  /** pbuf_alloc for PBUF_RAM: `q` is the memory that was found. */
  method AllocRam(pbufs: Pbufs, q: Ptr, length: u16, room: nat, junk: seq<byte>)
    requires pbufs.mem.Valid() && q != NULL && q !in pbufs.mem.next && |junk| == room + length
    modifies pbufs
    ensures pbufs.mem == AfterAlloc(old(pbufs.mem), q, Node(length, length, room, junk, Ram, false))
    ensures Single(pbufs.mem, q, junk[room..])
  {
    var n: Node := Node(length, length, room, junk, Ram, false);
    pbufs.AddNode(q, n);
    assert BytesOf(n) == junk[room..];
    SingleFrom(pbufs.mem, q, junk[room..]);
  }

  /** pbuf_take of a whole header. */
  method TakeAll(pbufs: Pbufs, p: Ptr, data: seq<byte>, ghost b: seq<byte>)
    requires Single(pbufs.mem, p, b) && |data| <= |b| < 0x1_0000
    modifies pbufs
    ensures pbufs.mem == old(pbufs.mem).(node := pbufs.mem.node) && Single(pbufs.mem, p, data + b[|data|..])
    ensures forall x :: x in pbufs.mem.node <==> x in old(pbufs.mem).node
    ensures forall x :: x in pbufs.mem.node && x != p ==> pbufs.mem.node[x] == old(pbufs.mem).node[x]
    ensures p in pbufs.mem.node && Rewrites(old(pbufs.mem).node[p], pbufs.mem.node[p])
  {
    ghost var m := pbufs.mem;
    SingleIs(m, p, b);
    var err := pbufs.Take(p, data, [p]);
    OverwrittenTotals(m.node, pbufs.mem.node, [p], Splice(b, 0, data));
    NodesDoNotMatter(m, pbufs.mem.node);
    assert Splice(b, 0, data) == data + b[|data|..];
    assert p in [p];
  }

  /** A pbuf of its own is new since `m`; otherwise memory is as it was. */
  ghost predicate Added(m: Memory, m': Memory, q: Ptr) {
    && Grows(m, m', NULL) && m'.owners == m.owners[q := 1] && Alone(m', q) && q !in m.next && m'.next.Keys == m.next.Keys + {q}
  }

  /** pbuf_alloc and pbuf_take of all bytes. */
  method Filled(pbufs: Pbufs, q: Ptr, room: nat, data: seq<byte>, junk: seq<byte>)
    requires pbufs.mem.Valid() && q != NULL && q !in pbufs.mem.next && |data| < 0x1_0000 && |junk| == room + |data|
    modifies pbufs
    ensures Single(pbufs.mem, q, data) && Added(old(pbufs.mem), pbufs.mem, q)
    ensures q in pbufs.mem.node && pbufs.mem.node[q].payload == room && pbufs.mem.node[q].kind == Ram
  {
    AllocRam(pbufs, q, |data|, room, junk);
    ghost var was := junk[room..];
    TakeAll(pbufs, q, data, was);
    assert data + was[|data|..] == data;
  }

  /** A new pbuf `q` has taken the reference to `p` over. */
  ghost predicate Joined(m: Memory, m': Memory, q: Ptr, p: Ptr) {
    && p in m.owners && 0 < m.owners[p] && p != q && q !in m.next
    && Grows(m, m', NULL) && m'.owners == m.owners[q := 1][p := m.owners[p] - 1] && Alone(m', q)
  }

  // ---- receiving -----------------------------------------------------------------------------------

  /** udp_on_received: the datagram `p` is queued behind its metadata.  Without memory for these it
      is not queued, and its reference is not given up either. */
  method OnReceived(pbufs: Pbufs, bigEndian: bool, buffer: Ptr, p: Ptr, md: Metadata, junk: seq<byte>, ghost ps: seq<Ptr>, ghost b: seq<byte>)
    returns (queued: Ptr)
    requires pbufs.mem.Valid() && Carries(pbufs.mem, p, ps, b) && p in pbufs.mem.owners && 0 < pbufs.mem.owners[p] && |b| + SIZE < 0x1_0000
    requires buffer !in pbufs.mem.next && |junk| == SIZE && Proper(md)
    modifies pbufs
    ensures queued == buffer && pbufs.mem.Valid()
    ensures if buffer == NULL then pbufs.mem == old(pbufs.mem)
            else Carries(pbufs.mem, buffer, [buffer] + ps, Frame(bigEndian, md) + b) && Joined(old(pbufs.mem), pbufs.mem, buffer, p)
  {
    queued := buffer;
    if buffer == NULL { return; }
    ghost var m := pbufs.mem;
    UnframeFrame(bigEndian, md);
    Filled(pbufs, buffer, 0, Frame(bigEndian, md), junk);
    AddedCarries(m, pbufs.mem, buffer, p, ps, b);
    JoinGrows(m, pbufs.mem, buffer, p, ps);
    Join(pbufs, buffer, p, ps, Frame(bigEndian, md), b);
  }

  lemma {:induction false} AddedCarries(m: Memory, m': Memory, q: Ptr, p: Ptr, ps: seq<Ptr>, b: seq<byte>)
    requires m.Valid() && Carries(m, p, ps, b) && Added(m, m', q) && p in m.owners && 0 < m.owners[p]
    ensures Carries(m', p, ps, b) && p in m'.owners && m'.owners[p] == m.owners[p] && q !in ps && p != q && m'.owners[q] == 1
  {
    ListNodes(m.next, p, ps);
    assert m.owners.Keys == m.next.Keys;
    ListFrame(m.next, m'.next, p, ps);
    CarriesStill(m, m', p, ps, b);
  }

  /** Linking the new pbuf to a chain changes nothing else either. */
  lemma {:induction false} JoinGrows(m: Memory, m1: Memory, q: Ptr, p: Ptr, ps: seq<Ptr>)
    requires m.Valid() && Added(m, m1, q) && p in m1.node && p in m.owners && 0 < m.owners[p] && p != q && p in m1.owners && m1.owners[p] == m.owners[p]
    ensures var m2 := AfterCat(m1, [q], p);
            Joined(m, m2, q, p)
  {
  }

  /** pbuf_cat of a single pbuf and a chain. */
  method Join(pbufs: Pbufs, h: Ptr, t: Ptr, ghost ts: seq<Ptr>, ghost a: seq<byte>, ghost b: seq<byte>)
    requires Single(pbufs.mem, h, a) && |a| < 0x1_0000 && Carries(pbufs.mem, t, ts, b) && h !in ts
    requires t in pbufs.mem.owners && 0 < pbufs.mem.owners[t] && t != h && pbufs.mem.owners[h] == 1
    modifies pbufs
    ensures pbufs.mem.Valid() && Carries(pbufs.mem, h, [h] + ts, a + b) && pbufs.mem == AfterCat(old(pbufs.mem), [h], t)
  {
    ghost var m := pbufs.mem;
    SingleIs(m, h, a);
    ListNodes(m.next, t, ts);
    assert m.owners.Keys == m.next.Keys && NULL !in m.next;
    assert ts != [];
    CatValid(m, h, [h], t, ts);
    CatBytes(m, h, [h], t, ts);
    CatTotals(m, h, [h], t, ts);
    pbufs.Cat(h, t, [h], ts);
  }

  /** udp_conn_recv of a queued datagram: metadata and payload are those that were queued, whatever
      links the payload has; a datagram too long for the caller's buffer is dropped. */
  method Recv(pbufs: Pbufs, bigEndian: bool, buf: Ptr, metadata: array<byte>, buffer: array<byte>,
              ghost qs: seq<Ptr>, ghost md: Metadata, ghost b: seq<byte>) returns (n: int)
    requires pbufs.mem.Valid() && Proper(md) && Carries(pbufs.mem, buf, qs, Frame(bigEndian, md) + b) && |b| + SIZE < 0x1_0000
    requires buf in pbufs.mem.owners && 0 < pbufs.mem.owners[buf]
    requires metadata.Length == SIZE && metadata != buffer
    modifies pbufs, metadata, buffer
    ensures buf in old(pbufs.mem).owners && pbufs.mem == AfterFree(old(pbufs.mem), buf, qs) && pbufs.mem.Valid()
    ensures n == if |b| > buffer.Length then -1 else |b|
    ensures n == -1 ==> buffer[..] == old(buffer[..]) && metadata[..] == old(metadata[..])
    ensures n != -1 ==> buffer[..n] == b && buffer[n..] == old(buffer[n..]) && Unframe(bigEndian, metadata[..]) == md
  {
    ghost var m := pbufs.mem;
    ListNodes(m.next, buf, qs);
    UnframeFrame(bigEndian, md);
    assert m.owners.Keys == m.next.Keys && NULL !in m.next;
    assert m.node[buf].totLen == SIZE + |b| by { assert TotalAt(m.node, qs, 0) && qs[0..] == qs; }
    if pbufs.mem.node[buf].totLen - SIZE > buffer.Length {
      var _ := pbufs.Free(buf, qs);
      return -1;
    }
    var length := pbufs.mem.node[buf].totLen - SIZE;
    var c := CopyPartial(pbufs.mem, buf, metadata, SIZE, 0, qs);
    assert Slice(Frame(bigEndian, md) + b, 0, SIZE) == Frame(bigEndian, md);
    assert metadata[..] == metadata[..SIZE];
    var d := CopyPartial(pbufs.mem, buf, buffer, length, SIZE, qs);
    assert Slice(Frame(bigEndian, md) + b, SIZE, length) == b;
    var _ := pbufs.Free(buf, qs);
    n := length;
  }

  // ---- sending -----------------------------------------------------------------------------------------

  /** The length of a payload is passed on in 16 bits. */
  function Cut(data: seq<byte>): seq<byte> {
    data[..Low16(|data|)]
  }

  /** udp_conn_sendto up to the queue: payload, then the header in front of it. */
  method SendTo(pbufs: Pbufs, bigEndian: bool, buf: Ptr, md: Metadata, data: seq<byte>, room: nat, junk: seq<byte>) returns (queued: bool)
    requires pbufs.mem.Valid() && buf !in pbufs.mem.next && Proper(md) && SIZE <= room && |junk| == room + Low16(|data|)
    modifies pbufs
    ensures pbufs.mem.Valid() && (queued <==> buf != NULL && |Cut(data)| + SIZE < 0x1_0000)
    ensures queued ==> Single(pbufs.mem, buf, Frame(bigEndian, md) + Cut(data)) && Added(old(pbufs.mem), pbufs.mem, buf)
    ensures !queued ==> pbufs.mem == old(pbufs.mem)
  {
    if buf == NULL { return false; }
    ghost var m := pbufs.mem;
    var b := Cut(data);
    Filled(pbufs, buf, room, b, junk);
    SingleIs(pbufs.mem, buf, b);
    ghost var m1 := pbufs.mem;
    var failed := pbufs.AddHeader(buf, SIZE, false);
    if failed {
      GivenBack(m, m1, buf);
      var _ := pbufs.Free(buf, [buf]);
      return false;
    }
    FillHeader(pbufs, bigEndian, buf, md, b, m1);
    StillAdded(m, m1, pbufs.mem, buf);
    return true;
  }

  lemma {:induction false} StillAdded(m: Memory, m1: Memory, m2: Memory, q: Ptr)
    requires m.Valid() && Added(m, m1, q) && m2 == m1.(node := m2.node)
    requires m2.node.Keys == m1.node.Keys && forall x :: x in m2.node && x != q ==> m2.node[x] == m1.node[x]
    ensures Added(m, m2, q)
  {
  }

  /** pbuf_take of the metadata into the header that was added. */
  method FillHeader(pbufs: Pbufs, bigEndian: bool, buf: Ptr, md: Metadata, ghost data: seq<byte>, ghost m1: Memory)
    requires Single(m1, buf, data) && buf in m1.node && SIZE <= m1.node[buf].payload && |data| + SIZE < 0x1_0000 && Proper(md)
    requires pbufs.mem == m1.SetNode(buf, WithHeader(m1.node[buf], SIZE)) && pbufs.mem.Valid()
    modifies pbufs
    ensures Single(pbufs.mem, buf, Frame(bigEndian, md) + data) && pbufs.mem == m1.(node := pbufs.mem.node)
    ensures pbufs.mem.node.Keys == m1.node.Keys && forall x :: x in pbufs.mem.node && x != buf ==> pbufs.mem.node[x] == m1.node[x]
  {
    UnframeFrame(bigEndian, md);
    ghost var head := HeaderRoom(m1, pbufs.mem, buf, data);
    TakeAll(pbufs, buf, Frame(bigEndian, md), head + data);
    assert Frame(bigEndian, md) + (head + data)[SIZE..] == Frame(bigEndian, md) + data;
  }

  /** The pbuf whose header was refused is deallocated again. */
  lemma {:induction false} GivenBack(m: Memory, m1: Memory, q: Ptr)
    requires m.Valid() && m1.Valid() && Added(m, m1, q) && q != NULL && q in m1.next && m1.next[q] == NULL
    ensures IsList(m1.next, q, [q]) && q in m1.owners && 0 < m1.owners[q] && AfterFree(m1, q, [q]) == m
  {
    assert [q][1..] == [] && [q][..1] == [q];
    assert Unshared(m1.ref, [q]) == 1;
    assert NodeSet([q]) == {q};
    assert m1.next - {q} == m.next && m1.ref - {q} == m.ref && m1.node - {q} == m.node;
    assert m1.owners[q := 0] - {q} == m.owners;
  }

  lemma {:induction false} HeaderRoom(m: Memory, m': Memory, p: Ptr, data: seq<byte>) returns (head: seq<byte>)
    requires Single(m, p, data) && p in m.node && SIZE <= m.node[p].payload && |data| + SIZE < 0x1_0000
    requires m' == m.SetNode(p, WithHeader(m.node[p], SIZE)) && m'.Valid()
    ensures |head| == SIZE && Single(m', p, head + data)
  {
    SingleIs(m, p, data);
    var n := m.node[p];
    RemoveUndoesAdd(n, SIZE);
    head := n.buffer[n.payload - SIZE..n.payload];
    SingleFrom(m', p, head + data);
  }

  /** udp_poll_tx for one datagram: the metadata are read, what is sent are the bytes of the
      caller, and the packet is given up.  `passed` is memory when the stack gets it. */
  method PollOne(pbufs: Pbufs, bigEndian: bool, buf: Ptr, ghost ps: seq<Ptr>, ghost md: Metadata, ghost data: seq<byte>)
    returns (sent: Metadata, ghost passed: Memory)
    requires pbufs.mem.Valid() && Carries(pbufs.mem, buf, ps, Frame(bigEndian, md) + data) && Proper(md) && |data| + SIZE < 0x1_0000
    requires buf in pbufs.mem.owners && 0 < pbufs.mem.owners[buf] && buf in pbufs.mem.node && SIZE <= pbufs.mem.node[buf].len
    modifies pbufs
    ensures sent == md && Carries(passed, buf, ps, data)
    ensures passed == old(pbufs.mem).SetNode(buf, WithoutHeader(old(pbufs.mem).node[buf], SIZE))
    ensures buf in passed.owners && 0 < passed.owners[buf] && pbufs.mem == AfterFree(passed, buf, ps) && pbufs.mem.Valid()
  {
    ghost var m := pbufs.mem;
    UnframeFrame(bigEndian, md);
    ListNodes(m.next, buf, ps);
    assert Frame(bigEndian, md) == (Frame(bigEndian, md) + data)[..SIZE] == BytesOf(m.node[buf])[..SIZE];
    sent := Unframe(bigEndian, BytesOf(pbufs.mem.node[buf])[..SIZE]);
    ChainWithoutHeader(m, buf, ps, Frame(bigEndian, md), data);
    var failed := pbufs.RemoveHeader(buf, SIZE);
    passed := pbufs.mem;
    assert m.owners.Keys == m.next.Keys;
    var _ := pbufs.Free(buf, ps);
  }
}
