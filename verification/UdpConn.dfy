/** native/udp.c: a connection with its rings, its packets, and what was queued in them. */
module UdpConn {
  // Each method of the class is one critical section, or the work before or after it, so that
  // calling them in any order gives every interleaving of application threads and the stack's
  // thread.  `h` tells what was queued in both directions and what the stack was given.

  import opened Bytes
  import opened Lists
  import opened PbufQueue
  import opened PbufBytes
  import opened PbufGraph
  import opened PbufMemory
  import opened PbufAlloc
  import opened PbufResize
  import opened PbufHeld
  import opened Pbuf
  import opened Tunnel
  import opened Channel
  import opened UdpFraming

  /** What a caller queues. */
  datatype Parcel = Parcel(md: Metadata, data: seq<byte>)

  /** Its bytes in a packet. */
  function Wire(bigEndian: bool, x: Parcel): seq<byte> {
    Frame(bigEndian, x.md) + x.data
  }

  ghost predicate Fits(x: Parcel) {
    Proper(x.md) && |x.data| + SIZE < 0x1_0000
  }

  /** The packets appended to a ring carry these parcels. */
  ghost predicate Framed(bigEndian: bool, xs: seq<Parcel>, bs: seq<seq<byte>>) {
    |xs| == |bs| && forall i :: 0 <= i < |xs| ==> Fits(xs[i]) && bs[i] == Wire(bigEndian, xs[i])
  }

  lemma {:induction false} FramedMore(bigEndian: bool, xs: seq<Parcel>, bs: seq<seq<byte>>, x: Parcel)
    requires Framed(bigEndian, xs, bs) && Fits(x)
    ensures Framed(bigEndian, xs + [x], bs + [Wire(bigEndian, x)])
  {
  }

  /** So do those popped. */
  lemma {:induction false} FramedPick(bigEndian: bool, xs: seq<Parcel>, bs: seq<seq<byte>>, taken: seq<bool>)
    requires Framed(bigEndian, xs, bs) && |taken| <= |xs|
    ensures Framed(bigEndian, Pick<Parcel>(xs, taken, true), Pick<seq<byte>>(bs, taken, true))
    decreases |taken|
  {
    if taken != [] { FramedPick(bigEndian, xs, bs, taken[..|taken| - 1]); }
  }

  /** The parcels of the packets popped, in the order in which they were queued. */
  ghost function Taken(log: Log, xs: seq<Parcel>): seq<Parcel>
    requires |log.taken| <= |xs|
  {
    Pick<Parcel>(xs, log.taken, true)
  }

  /** No packet is missing. */
  ghost predicate NoNull(v: View) {
    NULL !in v.rx.log.accepted && NULL !in v.tx.log.accepted && NULL !in v.batch.packets
  }

  /** What was queued in both directions, and what was passed to udp_sendto. */
  datatype History = History(rx: seq<Parcel>, tx: seq<Parcel>, sent: seq<Parcel>)

  /** The stack gets the parcels of packets popped in order, up to the time of closing. */
  ghost predicate Consistent(bigEndian: bool, v: View, h: History) {
    && Framed(bigEndian, h.rx, v.rx.made) && Framed(bigEndian, h.tx, v.tx.made) && NoNull(v)
    && |v.rx.log.taken| <= |h.rx| && |v.tx.log.taken| <= |h.tx|
    && |v.batch.done| <= |Taken(v.tx.log, h.tx)|
    && h.sent <= Taken(v.tx.log, h.tx)[..|v.batch.done|] && (!v.closed ==> h.sent == Taken(v.tx.log, h.tx)[..|v.batch.done|])
  }

  lemma {:induction false} PushRxConsistent(bigEndian: bool, v: View, h: History, p: Ptr, x: Parcel)
    requires Consistent(bigEndian, v, h) && Fits(x) && p != NULL
    ensures Consistent(bigEndian, v.(rx := Push(v.rx, p, Wire(bigEndian, x))), h.(rx := h.rx + [x]))
  {
    FramedMore(bigEndian, h.rx, v.rx.made, x);
  }

  ghost predicate Safe(m: Memory, v: View) {
    Good(m, v, SIZE)
  }

  lemma {:induction false} PushTxConsistent(bigEndian: bool, m: Memory, v: View, h: History, p: Ptr, accepts: bool, x: Parcel)
    requires Safe(m, v) && Consistent(bigEndian, v, h) && Fits(x) && p != NULL
    ensures Consistent(bigEndian, WithSent(v, p, accepts, Wire(bigEndian, x)), h.(tx := h.tx + [x]))
  {
    var log' := Pushed(v.tx.log, v.tx.contents, p);
    FramedMore(bigEndian, h.tx, v.tx.made, x);
    PickFrame<Parcel>(h.tx, h.tx + [x], v.tx.log.taken, true);
    if |v.tx.contents| == LENGTH { assert log'.taken[..|v.tx.log.taken|] == v.tx.log.taken; }
    assert Taken(log', h.tx + [x]) == Taken(v.tx.log, h.tx);
  }

  lemma {:induction false} PopTxConsistent(bigEndian: bool, v: View, h: History, n: nat)
    requires Consistent(bigEndian, v, h) && n <= |v.tx.contents| && |v.tx.log.taken| + n <= |v.tx.made| && v.tx.contents[..n] <= v.tx.contents
    requires Records(v.tx.log, v.tx.contents)
    ensures Consistent(bigEndian, v.(tx := Pop(v.tx, n), batch := Batch(v.tx.contents[..n], Next(v.tx, n), v.batch.done), pending := 0), h)
  {
    var k := |v.batch.done|;
    PickPopped<Parcel>(h.tx, v.tx.log.taken, n);
    assert Taken(Pop(v.tx, n).log, h.tx)[..k] == Taken(v.tx.log, h.tx)[..k];
    assert forall p :: p in v.tx.contents ==> p in v.tx.log.accepted;
  }

  /** The callback goes on with packet `p`, which carries the next parcel that was taken from the
      ring; the stack gets it unless the connection is closed. */
  ghost predicate PassedOn(v: View, v': View, h: History, h': History, sent: bool, p: Ptr, x: Parcel) {
    && v.batch.packets != [] && v.batch.made != [] && p == v.batch.packets[0] && v' == v.(batch := Shorter(v.batch))
    && |v.tx.log.taken| <= |h.tx| && |v.batch.done| < |Taken(v.tx.log, h.tx)| && x == Taken(v.tx.log, h.tx)[|v.batch.done|]
    && sent == !v.closed && h' == if sent then h.(sent := h.sent + [x]) else h
  }

  lemma {:induction false} PassOnConsistent(bigEndian: bool, v: View, h: History) returns (x: Parcel, h': History)
    requires Consistent(bigEndian, v, h) && v.batch.packets != [] && v.batch.made != [] && |v.tx.log.taken| <= |v.tx.made|
    requires Out(v.tx) == v.batch.done + v.batch.made
    ensures PassedOn(v, v.(batch := Shorter(v.batch)), h, h', !v.closed, v.batch.packets[0], x)
    ensures Fits(x) && v.batch.made[0] == Wire(bigEndian, x) && v.batch.packets[0] != NULL
    ensures Consistent(bigEndian, v.(batch := Shorter(v.batch)), h')
  {
    FramedPick(bigEndian, h.tx, v.tx.made, v.tx.log.taken);
    var t, k := Taken(v.tx.log, h.tx), |v.batch.done|;
    assert Out(v.tx)[k] == v.batch.made[0];
    assert t[..k + 1] == t[..k] + [t[k]];
    assert v.batch.packets[0] in v.batch.packets && forall p :: p in v.batch.packets[1..] ==> p in v.batch.packets;
    x := t[k];
    h' := if v.closed then h else h.(sent := h.sent + [x]);
  }

  lemma {:induction false} PopRxConsistent(bigEndian: bool, v: View, h: History)
    requires Consistent(bigEndian, v, h) && Records(v.rx.log, v.rx.contents) && v.rx.contents != [] && |v.rx.log.taken| < |v.rx.made|
    ensures Consistent(bigEndian, v.(rx := Pop(v.rx, 1)), h)
    ensures Fits(h.rx[|v.rx.log.taken|]) && v.rx.made[|v.rx.log.taken|] == Wire(bigEndian, h.rx[|v.rx.log.taken|]) && v.rx.contents[0] != NULL
    ensures Taken(Pop(v.rx, 1).log, h.rx) == Taken(v.rx.log, h.rx) + [h.rx[|v.rx.log.taken|]]
  {
    var n := |v.rx.log.taken|;
    PickPopped<Parcel>(h.rx, v.rx.log.taken, 1);
    assert h.rx[n..n + 1] == [h.rx[n]];
    assert v.rx.contents[0] == v.rx.log.accepted[n];
  }

  /** How udp_conn_recv ends. */
  datatype Answer = MustWait | Failed | Bytes(n: nat)

  /** What a reader finds in his buffers. */
  ghost predicate ReadAs(bigEndian: bool, a: Answer, x: Parcel, metadata: seq<byte>, buffer: seq<byte>, metadata0: seq<byte>, buffer0: seq<byte>) {
    if |x.data| > |buffer| then a == Failed && metadata == metadata0 && buffer == buffer0
    else && a == Bytes(|x.data|) && |buffer| == |buffer0| && buffer == x.data + buffer0[|x.data|..]
         && |metadata| == SIZE && Unframe(bigEndian, metadata) == x.md
  }

  /** The outcome of reading from `v`: `xs` are the parcels queued for the readers. */
  ghost predicate Received(bigEndian: bool, m: Memory, m': Memory, v: View, v': View, xs: seq<Parcel>, a: Answer, metadata: seq<byte>, buffer: seq<byte>, metadata0: seq<byte>, buffer0: seq<byte>) {
    var n := |v.rx.log.taken|;
    if v.rx.contents == [] then a == (if v.closed then Failed else MustWait) && v' == v && m' == m && metadata == metadata0 && buffer == buffer0
    else && GivenUp(m, m', v.rx.contents[0]) && n < |xs| && v' == v.(rx := Pop(v.rx, 1)) && |v'.rx.log.taken| <= |xs| && Taken(v'.rx.log, xs) == Taken(v.rx.log, xs) + [xs[n]]
         && ReadAs(bigEndian, a, xs[n], metadata, buffer, metadata0, buffer0)
  }

  lemma {:induction false} Overwritten(s: seq<byte>, s0: seq<byte>, b: seq<byte>)
    requires |s| == |s0| && |b| <= |s| && s[..|b|] == b && s[|b|..] == s0[|b|..]
    ensures s == b + s0[|b|..]
  {
    assert s == s[..|b|] + s[|b|..];
  }

  // ---- work on packets while those in the rings are in place -----------------------------------

  /** A packet in the callback's hands that carries parcel `x`. */
  ghost predicate Outgoing(bigEndian: bool, m: Memory, v: View, p: Ptr, x: Parcel) {
    Fits(x) && p != NULL && Sendable(m, v, SIZE, p, Wire(bigEndian, x))
  }

  method Prepare(pbufs: Pbufs, ghost v: View, bigEndian: bool, buffer: Ptr, p: Ptr, md: Metadata, junk: seq<byte>, ghost ps: seq<Ptr>, ghost x: Parcel)
    returns (q: Ptr)
    requires Safe(pbufs.mem, v) && Fits(x) && x.md == md && Carries(pbufs.mem, p, ps, x.data) && |junk| == SIZE
    requires p in pbufs.mem.owners && InUse(v)[p] < pbufs.mem.owners[p] && buffer !in pbufs.mem.next
    modifies pbufs
    ensures Safe(pbufs.mem, v) && q == buffer
    ensures if q == NULL then pbufs.mem == old(pbufs.mem) else Loose(pbufs.mem, v, q, Wire(bigEndian, x))
  {
    ghost var m := pbufs.mem;
    q := UdpFraming.OnReceived(pbufs, bigEndian, buffer, p, md, junk, ps, x.data);
    ReceivedGood(m, pbufs.mem, v, SIZE, q, p, ps, Wire(bigEndian, x));
  }

  method Fill(pbufs: Pbufs, ghost v: View, bigEndian: bool, buf: Ptr, md: Metadata, data: seq<byte>, room: nat, junk: seq<byte>, ghost x: Parcel)
    returns (queued: bool)
    requires Safe(pbufs.mem, v) && buf !in pbufs.mem.next && Proper(md) && SIZE <= room && |junk| == room + Low16(|data|)
    requires x == Parcel(md, Cut(data))
    modifies pbufs
    ensures Safe(pbufs.mem, v) && (queued <==> buf != NULL && |Cut(data)| + SIZE < 0x1_0000)
    ensures if queued then buf != NULL && Fits(x) && Sendable(pbufs.mem, v, SIZE, buf, Wire(bigEndian, x)) else pbufs.mem == old(pbufs.mem)
  {
    ghost var m := pbufs.mem;
    queued := UdpFraming.SendTo(pbufs, bigEndian, buf, md, data, room, junk);
    if queued { FilledGood(m, pbufs.mem, v, SIZE, buf, bigEndian, x); }
  }

  method Unpack(pbufs: Pbufs, ghost v: View, bigEndian: bool, p: Ptr, metadata: array<byte>, buffer: array<byte>, ghost x: Parcel) returns (a: Answer)
    requires Safe(pbufs.mem, v) && Fits(x) && Loose(pbufs.mem, v, p, Wire(bigEndian, x))
    requires metadata.Length == SIZE && metadata != buffer
    modifies pbufs, metadata, buffer
    ensures Safe(pbufs.mem, v) && ReadAs(bigEndian, a, x, metadata[..], buffer[..], old(metadata[..]), old(buffer[..]))
    ensures GivenUp(old(pbufs.mem), pbufs.mem, p)
  {
    ghost var m := pbufs.mem;
    ghost var ps :| Carries(m, p, ps, Wire(bigEndian, x));
    FreeGivesUp(m, p, ps);
    LooseIsSpare(m, v, SIZE, p, Wire(bigEndian, x));
    FreeSpare(m, v, SIZE, p, ps);
    var n := UdpFraming.Recv(pbufs, bigEndian, p, metadata, buffer, ps, x.md, x.data);
    a := if n == -1 then Failed else Bytes(n);
    if n != -1 { Overwritten(buffer[..], old(buffer[..]), x.data); }
  }

  /** The packet was passed on without its header, and then given up. */
  ghost predicate Unloaded(m: Memory, passed: Memory, m': Memory, p: Ptr, ps: seq<Ptr>) {
    && p in m.node && SIZE <= m.node[p].len && passed == m.SetNode(p, WithoutHeader(m.node[p], SIZE))
    && p in passed.owners && 0 < passed.owners[p] && m' == AfterFree(passed, p, ps)
  }

  method Unload(pbufs: Pbufs, ghost v: View, bigEndian: bool, p: Ptr, ghost x: Parcel) returns (md: Metadata, ghost passed: Memory, ghost ps: seq<Ptr>)
    requires Safe(pbufs.mem, v) && Outgoing(bigEndian, pbufs.mem, v, p, x)
    modifies pbufs
    ensures Safe(pbufs.mem, v) && md == x.md && Carries(passed, p, ps, x.data) && Unloaded(old(pbufs.mem), passed, pbufs.mem, p, ps)
  {
    ghost var m, b := pbufs.mem, Wire(bigEndian, x);
    ps :| Carries(m, p, ps, b);
    UnloadGood(m, v, p, ps, b);
    md, passed := UdpFraming.PollOne(pbufs, bigEndian, p, ps, x.md, x.data);
  }

  class UdpConn {
    const ch: Channel
    const bigEndian: bool
    ghost var h: History

    ghost predicate Valid()
      reads this, ch, ch.Repr
    {
      ch.Valid() && this !in ch.Repr && ch.least == SIZE && Consistent(bigEndian, ch.Now(), h)
    }

    /** udp_conn_listen */
    constructor (pbufs: Pbufs, bigEndian: bool)
      requires pbufs.mem.Valid()
      ensures Valid() && h == History([], [], []) && ch.pbufs == pbufs && fresh(ch.Repr - {pbufs}) && !ch.tunnel.closed
    {
      ch := new Channel(pbufs, SIZE);
      this.bigEndian := bigEndian;
      h := History([], [], []);
    }

    /** udp_on_received: the datagram and its metadata are queued, if there is memory for these. */
    method OnReceived(buffer: Ptr, p: Ptr, md: Metadata, junk: seq<byte>, ghost ps: seq<Ptr>, ghost b: seq<byte>)
      requires Valid() && Carries(ch.pbufs.mem, p, ps, b) && |b| + SIZE < 0x1_0000 && Proper(md) && |junk| == SIZE
      requires p in ch.pbufs.mem.owners && InUse(ch.Now())[p] < ch.pbufs.mem.owners[p] && buffer !in ch.pbufs.mem.next
      modifies this, ch.Repr
      ensures Valid()
      ensures if buffer == NULL then h == old(h) && ch.Now() == old(ch.Now()) && ch.pbufs.mem == old(ch.pbufs.mem)
              else && h == old(h).(rx := old(h).rx + [Parcel(md, b)])
                   && ch.Now() == old(ch.Now()).(rx := Push(old(ch.Now()).rx, buffer, Wire(bigEndian, Parcel(md, b))))
    {
      ghost var x := Parcel(md, b);
      var q := Prepare(ch.pbufs, ch.Now(), bigEndian, buffer, p, md, junk, ps, x);
      ch.RingsUntouched();
      if q != NULL { QueueRx(q, x); }
    }

    method QueueRx(q: Ptr, ghost x: Parcel)
      requires Valid() && Fits(x) && Loose(ch.pbufs.mem, ch.Now(), q, Wire(bigEndian, x))
      modifies this, ch.Repr
      ensures Valid() && h == old(h).(rx := old(h).rx + [x])
      ensures ch.Now() == old(ch.Now()).(rx := Push(old(ch.Now()).rx, q, Wire(bigEndian, x)))
    {
      PushRxConsistent(bigEndian, ch.Now(), h, q, x);
      ch.PutRx(q, Wire(bigEndian, x));
      h := h.(rx := h.rx + [x]);
    }

    /** udp_conn_sendto.  Whether the connection was open is found out without a lock, before the
        packet is made; `accepts` is the answer of tcpip_try_callback. */
    method SendTo(open: bool, buf: Ptr, md: Metadata, data: seq<byte>, room: nat, junk: seq<byte>, accepts: bool) returns (size: int)
      requires Valid() && (!open ==> ch.tunnel.closed)
      requires buf !in ch.pbufs.mem.next && Proper(md) && SIZE <= room && |junk| == room + Low16(|data|)
      modifies this, ch.Repr
      ensures Valid() && size == if open && buf != NULL && |Cut(data)| + SIZE < 0x1_0000 then |data| else -1
      ensures var x := Parcel(md, Cut(data));
              if size == -1 then h == old(h) && ch.Now() == old(ch.Now()) && ch.pbufs.mem == old(ch.pbufs.mem)
              else h == old(h).(tx := old(h).tx + [x]) && ch.Now() == WithSent(old(ch.Now()), buf, accepts, Wire(bigEndian, x))
    {
      if !open { return -1; }
      ghost var x := Parcel(md, Cut(data));
      var queued := Fill(ch.pbufs, ch.Now(), bigEndian, buf, md, data, room, junk, x);
      ch.RingsUntouched();
      if !queued { return -1; }
      QueueTx(buf, accepts, x);
      size := |data|;
    }

    method QueueTx(buf: Ptr, accepts: bool, ghost x: Parcel)
      requires Valid() && Fits(x) && buf != NULL && Sendable(ch.pbufs.mem, ch.Now(), SIZE, buf, Wire(bigEndian, x))
      modifies this, ch.Repr
      ensures Valid() && h == old(h).(tx := old(h).tx + [x])
      ensures ch.Now() == WithSent(old(ch.Now()), buf, accepts, Wire(bigEndian, x))
    {
      PushTxConsistent(bigEndian, ch.pbufs.mem, ch.Now(), h, buf, accepts, x);
      ch.PutTx(buf, accepts, Wire(bigEndian, x));
      h := h.(tx := h.tx + [x]);
    }

    /** udp_conn_recv: the next parcel in the order of queueing, or it has to wait; a parcel too
        long for the buffer is lost. */
    method Recv(metadata: array<byte>, buffer: array<byte>) returns (a: Answer)
      requires Valid() && metadata.Length == SIZE && metadata != buffer && metadata as object != this && buffer as object != this
      requires metadata !in ch.Repr && buffer !in ch.Repr
      modifies ch.Repr, metadata, buffer
      ensures Valid() && Received(bigEndian, old(ch.pbufs.mem), ch.pbufs.mem, old(ch.Now()), ch.Now(), h.rx, a, metadata[..], buffer[..], old(metadata[..]), old(buffer[..]))
    {
      ghost var v := ch.Now();
      if v.rx.contents != [] { TakenIsLess(ch.pbufs.mem, v, SIZE); PopRxConsistent(bigEndian, v, h); }
      var r;
      ghost var b;
      r, b := ch.TakeRx();
      if !r.Got? { return if r.IsClosed? then Failed else MustWait; }
      a := ReadOut(r.p, metadata, buffer, h.rx[|v.rx.log.taken|]);
    }

    method ReadOut(p: Ptr, metadata: array<byte>, buffer: array<byte>, ghost x: Parcel) returns (a: Answer)
      requires Valid() && Fits(x) && Loose(ch.pbufs.mem, ch.Now(), p, Wire(bigEndian, x))
      requires metadata.Length == SIZE && metadata != buffer && metadata as object != this && buffer as object != this
      requires metadata !in ch.Repr && buffer !in ch.Repr
      modifies ch.pbufs, metadata, buffer
      ensures Valid() && ch.Now() == old(ch.Now()) && ReadAs(bigEndian, a, x, metadata[..], buffer[..], old(metadata[..]), old(buffer[..]))
      ensures GivenUp(old(ch.pbufs.mem), ch.pbufs.mem, p)
    {
      a := Unpack(ch.pbufs, ch.Now(), bigEndian, p, metadata, buffer, x);
      ch.RingsUntouched();
    }

    /** udp_poll_tx, critical section. */
    method StartPoll()
      requires Valid() && 0 < ch.tunnel.pending && ch.tunnel.batch == []
      modifies ch.Repr
      ensures Valid() && !ch.tunnel.txPolling
      ensures var v, n := old(ch.Now()), |ch.tunnel.batch|;
              && n <= BATCH && n <= |v.tx.contents| && (n < BATCH ==> n == |v.tx.contents|) && |v.tx.log.taken| + n <= |v.tx.made|
              && ch.Now() == v.(tx := Pop(v.tx, n), batch := Batch(v.tx.contents[..n], Next(v.tx, n), v.batch.done), pending := 0)
    {
      ghost var v := ch.Now();
      ch.StartPoll();
      PopTxConsistent(bigEndian, v, h, |ch.tunnel.batch|);
    }

    /** udp_poll_tx, one packet: it is passed on unless the connection is closed, and given up. */
    method PollOne() returns (sent: bool, md: Metadata, ghost p: Ptr, ghost x: Parcel, ghost passed: Memory, ghost ps: seq<Ptr>)
      requires Valid() && ch.tunnel.batch != []
      modifies this, ch.Repr
      ensures Valid() && PassedOn(old(ch.Now()), ch.Now(), old(h), h, sent, p, x)
      ensures md == x.md && Carries(passed, p, ps, x.data) && Unloaded(old(ch.pbufs.mem), passed, ch.pbufs.mem, p, ps)
    {
      ghost var h';
      x, h' := PassOnConsistent(bigEndian, ch.Now(), h);
      sent := !ch.tunnel.closed;
      var q := TakeNext(x, h');
      p := q;
      md, passed, ps := Release(q, x);
    }

    method TakeNext(ghost x: Parcel, ghost h': History) returns (p: Ptr)
      requires Valid() && ch.tunnel.batch != [] && ch.Now().batch.made != [] && ch.Now().batch.packets[0] != NULL
      requires Fits(x) && ch.Now().batch.made[0] == Wire(bigEndian, x) && Consistent(bigEndian, ch.Now().(batch := Shorter(ch.Now().batch)), h')
      modifies this, ch, ch.tunnel
      ensures Valid() && h == h' && p == old(ch.tunnel.batch[0]) && ch.Now() == old(ch.Now().(batch := Shorter(ch.Now().batch)))
      ensures Outgoing(bigEndian, ch.pbufs.mem, ch.Now(), p, x)
    {
      ghost var b;
      p, b := ch.NextInHand();
      h := h';
    }

    method Release(p: Ptr, ghost x: Parcel) returns (md: Metadata, ghost passed: Memory, ghost ps: seq<Ptr>)
      requires Valid() && Outgoing(bigEndian, ch.pbufs.mem, ch.Now(), p, x)
      modifies ch.pbufs
      ensures Valid() && ch.Now() == old(ch.Now()) && md == x.md && Carries(passed, p, ps, x.data)
      ensures Unloaded(old(ch.pbufs.mem), passed, ch.pbufs.mem, p, ps)
    {
      md, passed, ps := Unload(ch.pbufs, ch.Now(), bigEndian, p, x);
      ch.RingsUntouched();
    }

    /** udp_conn_close */
    method Close()
      requires Valid()
      modifies ch.Repr
      ensures Valid() && ch.Now() == old(ch.Now()).(closed := true)
    {
      ch.Close();
    }

    /** Other users of pbufs. */
    method Elsewhere(m': Memory)
      requires Valid() && Bears(ch.pbufs.mem, m', ch.Now())
      modifies ch.pbufs
      ensures Valid() && ch.pbufs.mem == m' && ch.Now() == old(ch.Now())
    {
      ch.Elsewhere(m');
    }
  }

  lemma {:induction false} TakenIsLess(m: Memory, v: View, least: nat)
    requires Good(m, v, least) && v.rx.contents != []
    ensures |v.rx.log.taken| < |v.rx.made|
  {
  }

  lemma {:induction false} FilledGood(m: Memory, m': Memory, v: View, least: nat, q: Ptr, bigEndian: bool, x: Parcel)
    requires Good(m, v, least) && Added(m, m', q) && q != NULL && Single(m', q, Wire(bigEndian, x)) && Fits(x) && least <= SIZE
    ensures Good(m', v, least) && Sendable(m', v, SIZE, q, Wire(bigEndian, x))
  {
    UnframeFrame(bigEndian, x.md);
    NewIsUnused(m, v, least, q);
    GrowGood(m, m', v, least);
    SingleIs(m', q, Wire(bigEndian, x));
    assert m'.owners[q] == 1;
  }

  lemma {:induction false} UnloadGood(m: Memory, v: View, p: Ptr, ps: seq<Ptr>, b: seq<byte>)
    requires Good(m, v, SIZE) && p != NULL && Sendable(m, v, SIZE, p, b) && IsList(m.next, p, ps)
    ensures var m1 := m.SetNode(p, WithoutHeader(m.node[p], SIZE));
            p in m1.owners && 0 < m1.owners[p] && Good(AfterFree(m1, p, ps), v, SIZE)
  {
    var n := WithoutHeader(m.node[p], SIZE);
    WriteGood(m, v, SIZE, p, b, n);
    LooseIsSpare(m, v, SIZE, p, b);
    FreeSpare(m.SetNode(p, n), v, SIZE, p, ps);
  }

  lemma {:induction false} ReceivedOwned(m: Memory, m': Memory, v: View, least: nat, q: Ptr, p: Ptr)
    requires Good(m, v, least) && Joined(m, m', q, p) && InUse(v)[p] < m.owners[p] && q != NULL
    ensures AllOwned(m', InUse(v)) && InUse(v)[q] == 0 && q in m'.owners && m'.owners[q] == 1
  {
    NewIsUnused(m, v, least, q);
  }

  lemma {:induction false} ReceivedGood(m: Memory, m': Memory, v: View, least: nat, q: Ptr, p: Ptr, ps: seq<Ptr>, b: seq<byte>)
    requires Good(m, v, least) && p in m.owners && InUse(v)[p] < m.owners[p]
    requires if q == NULL then m' == m
             else m'.Valid() && Joined(m, m', q, p) && Carries(m', q, [q] + ps, b)
    ensures Good(m', v, least) && (q != NULL ==> Loose(m', v, q, b))
  {
    if q != NULL {
      ReceivedOwned(m, m', v, least, q, p);
      GrowGood(m, m', v, least);
    }
  }
}
