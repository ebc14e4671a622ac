/** native/link.c: the link with its rings and packets.

    Each method is one critical section, or the work before or after it, so that calling them in
    any order gives every interleaving of application threads and the stack's thread.  What was
    written and read is in the history of the rings. */
module Link {
  import opened Bytes
  import opened Errors
  import opened Lists
  import opened PbufQueue
  import opened PbufBytes
  import opened PbufGraph
  import opened PbufMemory
  import opened PbufAlloc
  import opened PbufRead
  import opened PbufWrite
  import opened PbufHeld
  import opened Pbuf
  import opened Tunnel
  import opened Channel

  ghost predicate Safe(m: Memory, v: View) {
    Good(m, v, 0)
  }

  /** The length is passed on in 16 bits. */
  function Cut(data: seq<byte>): seq<byte> {
    data[..Low16(|data|)]
  }

  // ---- link_write -------------------------------------------------------------------------------

  lemma {:induction false} PoolGrows(m: Memory, m1: Memory, m2: Memory, ps: seq<Ptr>)
    requires m1.Drop(NodeSet(ps)) == m && m2 == m1.(node := m2.node) && m1.node.Keys == m2.node.Keys
    requires forall x :: x in m1.node && x !in ps ==> m2.node[x] == m1.node[x]
    ensures Grows(m, m2, NULL) && forall x :: x in m.owners ==> x in m2.owners && m2.owners[x] == m.owners[x] && x !in ps
  {
    var gone := NodeSet(ps);
    assert forall x :: x in m.next ==> x in m1.next - gone;
    assert forall x :: x in m.ref ==> x in m1.ref - gone;
    assert forall x :: x in m.node ==> x in m1.node - gone && x !in ps;
    assert forall x :: x in m.owners ==> x in m1.owners - gone;
  }

  lemma {:induction false} PacketGood(m: Memory, m': Memory, v: View, p: Ptr, ps: seq<Ptr>, b: seq<byte>)
    requires Good(m, v, 0) && Grows(m, m', NULL) && m'.Valid() && p != NULL && p !in m.next
    requires forall x :: x in m.owners ==> x in m'.owners && m'.owners[x] == m.owners[x]
    requires Carries(m', p, ps, b) && p in m'.owners && 0 < m'.owners[p] && Alone(m', p) && p in m'.node
    ensures Good(m', v, 0) && Sendable(m', v, 0, p, b)
  {
    NewIsUnused(m, v, 0, p);
    GrowGood(m, m', v, 0);
  }

  lemma {:induction false} WrittenCarries(m1: Memory, m2: Memory, p: Ptr, ps: seq<Ptr>, b: seq<byte>)
    requires m1.Chain(p, ps) && Totals(m1.node, ps) && |Flat(m1.node, ps)| == |b| && m2 == m1.(node := m2.node)
    requires Overwritten(m1.node, m2.node, ps, Splice(Flat(m1.node, ps), 0, b))
    ensures Carries(m2, p, ps, b)
  {
    OverwrittenTotals(m1.node, m2.node, ps, Splice(Flat(m1.node, ps), 0, b));
    assert Splice(Flat(m1.node, ps), 0, b) == b;
  }

  /** pbuf_alloc and pbuf_take of link_write; without memory there is no packet. */
  method MakePacket(pbufs: Pbufs, ghost v: View, data: seq<byte>, room: nat, bufSize: u16, pool: seq<Ptr>, junk: seq<byte>) returns (p: Ptr)
    requires Safe(pbufs.mem, v) && room < bufSize && |junk| == bufSize
    requires NULL !in pool && Distinct(pool) && forall x :: x in pool ==> x !in pbufs.mem.next
    modifies pbufs
    ensures Safe(pbufs.mem, v) && Sendable(pbufs.mem, v, 0, p, Cut(data))
    ensures p == NULL <==> pool == [] || Capacity(|pool|, room, bufSize) < |Cut(data)|
    ensures p == NULL ==> pbufs.mem == old(pbufs.mem)
  {
    ghost var m, ps := pbufs.mem, [];
    p, ps := pbufs.AllocPool(Low16(|data|), room, bufSize, pool, junk);
    if p == NULL { return; }
    Fill(pbufs, v, m, p, ps, Cut(data));
    assert p in pool;
  }

  method Fill(pbufs: Pbufs, ghost v: View, ghost m: Memory, p: Ptr, ghost ps: seq<Ptr>, b: seq<byte>)
    requires Safe(m, v) && pbufs.mem.Valid() && pbufs.mem.Chain(p, ps) && Totals(pbufs.mem.node, ps) && |Flat(pbufs.mem.node, ps)| == |b| < 0x1_0000
    requires p != NULL && pbufs.mem.Drop(NodeSet(ps)) == m && p in pbufs.mem.owners && pbufs.mem.owners[p] == 1 && Alone(pbufs.mem, p)
    modifies pbufs
    ensures Safe(pbufs.mem, v) && Sendable(pbufs.mem, v, 0, p, b)
  {
    ghost var m1 := pbufs.mem;
    ListNodes(m1.next, p, ps);
    assert ps != [] && TotalAt(m1.node, ps, 0);
    var err := pbufs.Take(p, b, ps);
    WrittenCarries(m1, pbufs.mem, p, ps, b);
    NodesDoNotMatter(m1, pbufs.mem.node);
    PoolGrows(m, m1, pbufs.mem, ps);
    assert p in ps && p !in m.next;
    PacketGood(m, pbufs.mem, v, p, ps, b);
  }

  // ---- if_output ------------------------------------------------------------------------------

  lemma {:induction false} RefSpares(m: Memory, p: Ptr, q: Ptr)
    requires m.Valid() && p in m.next && p in m.ref && q in m.owners && 0 < m.owners[q] && (q != p || !Alone(m, q))
    ensures Spares(m, AfterRef(m, p), q)
  {
    var m' := AfterRef(m, p);
    forall qs | m.Chain(q, qs) ensures m'.Chain(q, qs) && SameNodes(m, m', qs) {
      ListNodes(m.next, q, qs);
      ListFrame(m.next, m'.next, q, qs);
    }
  }

  lemma {:induction false} RefSparesAll(m: Memory, p: Ptr, ms: multiset<Ptr>, qs: seq<Ptr>)
    requires m.Valid() && p in m.next && p in m.owners && ms[p] < m.owners[p] && AllOwned(m, ms) && forall q :: q in qs ==> q in ms
    ensures p in m.ref && AllSpared(m, AfterRef(m, p), qs) && AllOwned(AfterRef(m, p), ms)
  {
    assert At(m.next, m.ref, m.owners, NULL, p);
    forall q | q in qs && q != NULL ensures Spares(m, AfterRef(m, p), q) {
      assert q in ms && 0 < ms[q] <= m.owners[q];
      RefSpares(m, p, q);
    }
  }

  lemma {:induction false} RefValid(m: Memory, p: Ptr)
    requires m.Valid() && p in m.next
    ensures p in m.ref && p in m.owners && AfterRef(m, p).Valid()
  {
    RefKeepsCounts(m.next, m.ref, m.owners, p);
  }

  /** pbuf_ref by somebody who has a reference already. */
  lemma {:induction false} RefGood(m: Memory, v: View, p: Ptr)
    requires Safe(m, v) && p in m.next && p in m.owners && InUse(v)[p] < m.owners[p]
    ensures p in m.ref && Safe(AfterRef(m, p), v)
  {
    RefValid(m, p);
    RefSparesAll(m, p, InUse(v), v.rx.contents);
    RefSparesAll(m, p, InUse(v), v.tx.contents);
    RefSparesAll(m, p, InUse(v), v.batch.packets);
    StillGood(m, AfterRef(m, p), v, 0);
  }

  lemma {:induction false} RefLoose(m: Memory, v: View, p: Ptr, ps: seq<Ptr>, b: seq<byte>)
    requires p != NULL && Carries(m, p, ps, b) && p in m.owners && p in m.ref && InUse(v)[p] < m.owners[p]
    ensures Loose(AfterRef(m, p), v, p, b)
  {
    var m' := AfterRef(m, p);
    assert m'.Chain(p, ps) && SameNodes(m, m', ps);
    CarriesStill(m, m', p, ps, b);
  }

  method Retain(pbufs: Pbufs, ghost v: View, p: Ptr, ghost ps: seq<Ptr>, ghost b: seq<byte>)
    requires Safe(pbufs.mem, v) && p != NULL && Carries(pbufs.mem, p, ps, b) && p in pbufs.mem.owners && InUse(v)[p] < pbufs.mem.owners[p]
    requires p in pbufs.mem.ref && pbufs.mem.ref[p] + 1 < 0x100
    modifies pbufs
    ensures pbufs.mem == AfterRef(old(pbufs.mem), p) && Safe(pbufs.mem, v) && Loose(pbufs.mem, v, p, b)
  {
    ListNodes(pbufs.mem.next, p, ps);
    RefGood(pbufs.mem, v, p);
    RefLoose(pbufs.mem, v, p, ps, b);
    pbufs.Ref(p);
  }

  // ---- link_read ------------------------------------------------------------------------------

  /** What a reader finds in his buffer: a packet that fits, without a part that 16 bits cannot
      count, or nothing. */
  ghost predicate ReadAs(n: nat, b: seq<byte>, buffer: seq<byte>, buffer0: seq<byte>) {
    if |Cut(b)| > |buffer| then n == 0 && buffer == buffer0
    else n == |Cut(b)| && |buffer| == |buffer0| && buffer[..n] == Cut(b) && buffer[n..] == buffer0[n..]
  }

  method ReadOut(pbufs: Pbufs, ghost v: View, p: Ptr, buffer: array<byte>, ghost b: seq<byte>) returns (n: nat)
    requires Safe(pbufs.mem, v) && Loose(pbufs.mem, v, p, b)
    modifies pbufs, buffer
    ensures Safe(pbufs.mem, v) && ReadAs(n, b, buffer[..], old(buffer[..])) && GivenUp(old(pbufs.mem), pbufs.mem, p)
  {
    ghost var m := pbufs.mem;
    ghost var ps :| Carries(m, p, ps, b);
    LooseIsSpare(m, v, 0, p, b);
    FreeGivesUp(m, p, ps);
    FreeSpare(m, v, 0, p, ps);
    n := CopyOut(pbufs.mem, p, ps, b, buffer);
    var _ := pbufs.Free(p, ps);
  }

  method CopyOut(m: Memory, p: Ptr, ghost ps: seq<Ptr>, ghost b: seq<byte>, buffer: array<byte>) returns (n: nat)
    requires Carries(m, p, ps, b) && p != NULL
    modifies buffer
    ensures ReadAs(n, b, buffer[..], old(buffer[..]))
  {
    ListNodes(m.next, p, ps);
    assert TotalAt(m.node, ps, 0) && ps[0..] == ps;
    if buffer.Length < m.node[p].totLen { return 0; }
    n := m.node[p].totLen;
    assert Slice(b, 0, n) == Cut(b);
    var _ := CopyPartial(m, p, buffer, n, 0, ps);
  }

  /** How link_read ends. */
  datatype Answer = MustWait | Failed | Bytes(n: nat)

  /** The outcome of reading from `v`. */
  ghost predicate Received(m: Memory, m': Memory, v: View, v': View, a: Answer, buffer: seq<byte>, buffer0: seq<byte>) {
    var k := |v.rx.log.taken|;
    if v.rx.contents == [] then a == (if v.closed then Failed else MustWait) && v' == v && m' == m && buffer == buffer0
    else && GivenUp(m, m', v.rx.contents[0]) && k < |v.rx.made| && v' == v.(rx := Pop(v.rx, 1)) && |v'.rx.log.taken| <= |v'.rx.made|
         && Out(v'.rx) == Out(v.rx) + [v.rx.made[k]] && a.Bytes? && ReadAs(a.n, v.rx.made[k], buffer, buffer0)
  }

  class Link {
    const ch: Channel

    ghost predicate Valid()
      reads this, ch, ch.Repr
    {
      ch.Valid() && this !in ch.Repr && ch.least == 0 && NULL !in ch.tunnel.rxLog.accepted
    }

    /** link_attach */
    constructor (pbufs: Pbufs)
      requires pbufs.mem.Valid()
      ensures Valid() && ch.pbufs == pbufs && fresh(ch.Repr - {pbufs}) && !ch.tunnel.closed
    {
      ch := new Channel(pbufs, 0);
    }

    /** global_if_output and if_output: the stack keeps its reference. */
    method IfOutput(p: Ptr, ghost ps: seq<Ptr>, ghost b: seq<byte>)
      requires Valid() && p != NULL && Carries(ch.pbufs.mem, p, ps, b) && p in ch.pbufs.mem.owners && InUse(ch.Now())[p] < ch.pbufs.mem.owners[p]
      requires p in ch.pbufs.mem.ref && ch.pbufs.mem.ref[p] + 1 < 0x100
      modifies ch.Repr
      ensures Valid() && ch.Now() == old(ch.Now()).(rx := Push(old(ch.Now()).rx, p, b))
      ensures GivenUp(AfterRef(old(ch.pbufs.mem), p), ch.pbufs.mem, Oldest(old(ch.Now()).rx))
    {
      Retain(ch.pbufs, ch.Now(), p, ps, b);
      ch.RingsUntouched();
      ch.PutRx(p, b);
    }

    /** link_read */
    method Read(buffer: array<byte>) returns (a: Answer)
      requires Valid() && buffer !in ch.Repr
      modifies ch.Repr, buffer
      ensures Valid() && Received(old(ch.pbufs.mem), ch.pbufs.mem, old(ch.Now()), ch.Now(), a, buffer[..], old(buffer[..]))
    {
      ghost var v := ch.Now();
      assert v.rx.contents != [] ==> v.rx.contents[0] == v.rx.log.accepted[|v.rx.log.taken|];
      var r;
      ghost var b;
      r, b := ch.TakeRx();
      if !r.Got? { return if r.IsClosed? then Failed else MustWait; }
      a := Consume(r.p, buffer, b);
    }

    method Consume(p: Ptr, buffer: array<byte>, ghost b: seq<byte>) returns (a: Answer)
      requires Valid() && buffer !in ch.Repr && Loose(ch.pbufs.mem, ch.Now(), p, b)
      modifies ch.pbufs, buffer
      ensures Valid() && ch.Now() == old(ch.Now()) && a.Bytes? && ReadAs(a.n, b, buffer[..], old(buffer[..]))
      ensures GivenUp(old(ch.pbufs.mem), ch.pbufs.mem, p)
    {
      var n := ReadOut(ch.pbufs, ch.Now(), p, buffer, b);
      ch.RingsUntouched();
      a := Bytes(n);
    }

    /** link_write: after closing the packet is given back, else it is appended even if there was no
        memory for it. */
    method Write(data: seq<byte>, room: nat, bufSize: u16, pool: seq<Ptr>, junk: seq<byte>, accepts: bool) returns (size: int)
      requires Valid() && room < bufSize && |junk| == bufSize
      requires NULL !in pool && Distinct(pool) && forall x :: x in pool ==> x !in ch.pbufs.mem.next
      modifies ch.Repr
      ensures Valid() && size == if old(ch.tunnel.closed) then -1 else |data|
      ensures Written(old(ch.Now()), ch.Now(), data, pool == [] || Capacity(|pool|, room, bufSize) < |Cut(data)|, accepts)
    {
      var p := MakePacket(ch.pbufs, ch.Now(), data, room, bufSize, pool, junk);
      ch.RingsUntouched();
      size := Enqueue(p, data, accepts);
    }

    method Enqueue(p: Ptr, data: seq<byte>, accepts: bool) returns (size: int)
      requires Valid() && Sendable(ch.pbufs.mem, ch.Now(), 0, p, Cut(data))
      modifies ch.Repr
      ensures Valid() && size == if old(ch.tunnel.closed) then -1 else |data|
      ensures ch.Now() == if old(ch.tunnel.closed) then old(ch.Now()) else WithSent(old(ch.Now()), p, accepts, Cut(data))
    {
      if ch.tunnel.closed {
        if p != NULL { LooseIsSpare(ch.pbufs.mem, ch.Now(), 0, p, Cut(data)); }
        ch.Drop(p);
        return -1;
      }
      ch.PutTx(p, accepts, Cut(data));
      size := |data|;
    }

    /** poll_tx, critical section. */
    method StartPoll()
      requires Valid() && 0 < ch.tunnel.pending && ch.tunnel.batch == []
      modifies ch.Repr
      ensures Valid() && !ch.tunnel.txPolling
      ensures var v, n := old(ch.Now()), |ch.tunnel.batch|;
              && n <= BATCH && n <= |v.tx.contents| && (n < BATCH ==> n == |v.tx.contents|) && |v.tx.log.taken| + n <= |v.tx.made|
              && ch.Now() == v.(tx := Pop(v.tx, n), batch := Batch(v.tx.contents[..n], Next(v.tx, n), v.batch.done), pending := 0)
    {
      ch.StartPoll();
    }

    /** poll_tx, one packet: global_interface_inject_packet.  The stack takes the packet over or
        refuses it. */
    method InjectOne(taken: bool) returns (p: Ptr, ghost b: seq<byte>)
      requires Valid() && ch.tunnel.batch != []
      modifies ch.Repr
      ensures Valid()
      ensures var v := old(ch.Now());
              v.batch.made != [] && p == v.batch.packets[0] && b == v.batch.made[0] && ch.Now() == v.(batch := Shorter(v.batch))
      ensures taken ==> ch.pbufs.mem == old(ch.pbufs.mem) && Sendable(ch.pbufs.mem, ch.Now(), 0, p, b)
      ensures !taken ==> GivenUp(old(ch.pbufs.mem), ch.pbufs.mem, p)
    {
      p, b := ch.NextInHand();
      if p != NULL && !taken {
        LooseIsSpare(ch.pbufs.mem, ch.Now(), 0, p, b);
        ch.Drop(p);
      }
    }

    /** link_close */
    method Close()
      requires Valid()
      modifies ch.Repr
      ensures Valid() && ch.Now() == old(ch.Now()).(closed := true)
    {
      ch.Close();
    }
  }

  /** link_write has appended a packet with the data, or NULL if there was no memory. */
  ghost predicate Written(v: View, v': View, data: seq<byte>, noMemory: bool, accepts: bool) {
    if v.closed then v' == v else exists p :: (p == NULL <==> noMemory) && v' == WithSent(v, p, accepts, Cut(data))
  }
}
