/** The rings of native/link.c and native/udp.c together with the packets in them. */
module Channel {
  import opened Bytes
  import opened Lists
  import opened PbufQueue
  import opened PbufBytes
  import opened PbufGraph
  import opened PbufMemory
  import opened PbufHeld
  import opened Pbuf
  import opened Tunnel

  /** A ring with its history: `made` lists what the packets appended to it carried at that time,
      one for one with `log.accepted`. */
  datatype Ring = Ring(log: Log, contents: seq<Ptr>, made: seq<seq<byte>>)

  /** The packets still in the ring carry what they did. */
  ghost predicate Kept(m: Memory, r: Ring) {
    && Records(r.log, r.contents) && |r.made| == |r.log.accepted| && |r.contents| <= LENGTH
    && AllHeld(m, r.contents, r.made[|r.log.taken|..])
  }

  /** What the packets popped carried, in order. */
  ghost function Out(r: Ring): seq<seq<byte>>
    requires |r.log.taken| <= |r.made|
  {
    Pick<seq<byte>>(r.made, r.log.taken, true)
  }

  function Push(r: Ring, p: Ptr, b: seq<byte>): Ring {
    Ring(Pushed(r.log, r.contents, p), Newest(r.contents + [p]), r.made + [b])
  }

  /** The packet that `Push` drops. */
  function Oldest(r: Ring): Ptr {
    if |r.contents| == LENGTH then r.contents[0] else NULL
  }

  lemma {:induction false} KeptPush(m: Memory, r: Ring, p: Ptr, b: seq<byte>)
    requires Kept(m, r) && (p != NULL ==> Holds(m, p, b))
    ensures Kept(m, Push(r, p, b)) && Out(Push(r, p, b)) == Out(r)
  {
    var r', n := Push(r, p, b), |r.log.taken|;
    PushRecords(r.log, r.contents, p);
    PickFrame<seq<byte>>(r.made, r'.made, r.log.taken, true);
    HeldPush(m, r.contents, r.made[n..], p, b);
    if |r.contents| == LENGTH {
      assert r'.log.taken[..n] == r.log.taken;
      assert r'.made[n + 1..] == r.made[n..][1..] + [b];
    } else {
      assert r'.made[n..] == r.made[n..] + [b];
    }
  }

  lemma {:induction false} HeldPush(m: Memory, ps: seq<Ptr>, bs: seq<seq<byte>>, p: Ptr, b: seq<byte>)
    requires AllHeld(m, ps, bs) && |ps| <= LENGTH && (p != NULL ==> Holds(m, p, b))
    ensures AllHeld(m, Newest(ps + [p]), (if |ps| == LENGTH then bs[1..] else bs) + [b])
  {
    if |ps| == LENGTH {
      HeldTail(m, ps, bs, 1);
      HeldMore(m, ps[1..], bs[1..], p, b);
      assert Newest(ps + [p]) == ps[1..] + [p];
    } else {
      HeldMore(m, ps, bs, p, b);
    }
  }

  lemma {:induction false} HeldTail(m: Memory, ps: seq<Ptr>, bs: seq<seq<byte>>, n: nat)
    requires AllHeld(m, ps, bs) && n <= |ps|
    ensures AllHeld(m, ps[..n], bs[..n]) && AllHeld(m, ps[n..], bs[n..])
  {
    forall i | 0 <= i < |ps| - n && ps[n..][i] != NULL ensures Holds(m, ps[n..][i], bs[n..][i]) {
      assert ps[n..][i] == ps[n + i] && bs[n..][i] == bs[n + i];
    }
  }

  lemma {:induction false} HeldMore(m: Memory, ps: seq<Ptr>, bs: seq<seq<byte>>, p: Ptr, b: seq<byte>)
    requires AllHeld(m, ps, bs) && (p != NULL ==> Holds(m, p, b))
    ensures AllHeld(m, ps + [p], bs + [b])
  {
  }

  /** The first `n` packets are popped. */
  function Pop(r: Ring, n: nat): Ring
    requires n <= |r.contents|
  {
    Ring(Popped(r.log, r.contents[..n]), r.contents[n..], r.made)
  }

  /** What the next `n` packets carry. */
  function Next(r: Ring, n: nat): seq<seq<byte>>
    requires |r.log.taken| + n <= |r.made|
  {
    r.made[|r.log.taken|..|r.log.taken| + n]
  }

  lemma {:induction false} KeptPop(m: Memory, r: Ring, n: nat)
    requires Kept(m, r) && n <= |r.contents|
    ensures |r.log.taken| + n <= |r.made|
    ensures Kept(m, Pop(r, n)) && AllHeld(m, r.contents[..n], Next(r, n)) && Out(Pop(r, n)) == Out(r) + Next(r, n)
  {
    var k := |r.log.taken|;
    assert r.contents[..n] + r.contents[n..] == r.contents;
    PopRecords(r.log, r.contents[..n], r.contents[n..]);
    PickPopped<seq<byte>>(r.made, r.log.taken, n);
    HeldTail(m, r.contents, r.made[k..], n);
    assert r.made[k..][..n] == Next(r, n) && r.made[k..][n..] == r.made[k + n..];
  }

  // ---- both rings and the callback ------------------------------------------------------------

  /** The packets the callback has still to pass on, what they carry, and what those passed on
      before carried. */
  datatype Batch = Batch(packets: seq<Ptr>, made: seq<seq<byte>>, done: seq<seq<byte>>)

  /** A channel at one time: `pending` callbacks were asked for and have not run yet. */
  datatype View = View(rx: Ring, tx: Ring, batch: Batch, pending: nat, closed: bool)

  /** How often a packet is in the rings and in the callback's hands. */
  ghost function InUse(v: View): multiset<Ptr> {
    multiset(v.rx.contents) + multiset(v.tx.contents) + multiset(v.batch.packets)
  }

  /** Each packet is allocated, has a reference for each place where it is, and carries what it did
      when it was appended; those to be sent have `least` bytes in their first link and are nobody
      else's. */
  ghost predicate Good(m: Memory, v: View, least: nat) {
    && m.Valid() && Kept(m, v.rx) && Kept(m, v.tx) && AllHeld(m, v.batch.packets, v.batch.made)
    && Out(v.tx) == v.batch.done + v.batch.made
    && AllAlone(m, v.tx.contents, least) && AllAlone(m, v.batch.packets, least)
    && AllOwned(m, InUse(v))
  }

  /** Memory changes in a way that spares these packets. */
  ghost predicate Bears(m: Memory, m': Memory, v: View) {
    && m'.Valid() && AllOwned(m', InUse(v))
    && AllSpared(m, m', v.rx.contents) && AllSpared(m, m', v.tx.contents) && AllSpared(m, m', v.batch.packets)
  }

  lemma {:induction false} StillGood(m: Memory, m': Memory, v: View, least: nat)
    requires Good(m, v, least) && Bears(m, m', v)
    ensures Good(m', v, least)
  {
    AllHeldStill(m, m', v.rx.contents, v.rx.made[|v.rx.log.taken|..], least);
    AllHeldStill(m, m', v.tx.contents, v.tx.made[|v.tx.log.taken|..], least);
    AllHeldStill(m, m', v.batch.packets, v.batch.made, least);
  }

  /** Somebody has a reference of his own to a packet that carries `b`. */
  ghost predicate Loose(m: Memory, v: View, p: Ptr, b: seq<byte>) {
    p != NULL && Holds(m, p, b) && InUse(v)[p] < m.owners[p]
  }

  /** There is a reference to `p` besides those of the rings and the callback. */
  ghost predicate Spare(m: Memory, v: View, p: Ptr) {
    p != NULL ==> p in m.next && AllOwned(m, InUse(v) + multiset{p})
  }

  lemma {:induction false} LooseIsSpare(m: Memory, v: View, least: nat, p: Ptr, b: seq<byte>)
    requires Good(m, v, least) && Loose(m, v, p, b)
    ensures Spare(m, v, p)
  {
    LooseOwned(m, InUse(v), p);
  }

  /** A packet that may be sent, or none. */
  ghost predicate Sendable(m: Memory, v: View, least: nat, p: Ptr, b: seq<byte>) {
    p != NULL ==> Loose(m, v, p, b) && Alone(m, p) && p in m.node && least <= m.node[p].len
  }

  /** Giving a reference up does no harm to the others. */
  lemma {:induction false} FreeSpare(m: Memory, v: View, least: nat, p: Ptr, ps: seq<Ptr>)
    requires Good(m, v, least) && p != NULL && Spare(m, v, p) && IsList(m.next, p, ps)
    ensures p in m.next && p in m.owners && 0 < m.owners[p] && Good(AfterFree(m, p, ps), v, least)
  {
    var ms, m' := InUse(v), AfterFree(m, p, ps);
    FreeSparesAll(m, p, ps, ms, v.rx.contents);
    FreeSparesAll(m, p, ps, ms, v.tx.contents);
    FreeSparesAll(m, p, ps, ms, v.batch.packets);
    FreeOwnsAll(m, p, ps, ms);
    StillGood(m, m', v, least);
  }

  lemma {:induction false} LooseOwned(m: Memory, ms: multiset<Ptr>, p: Ptr)
    requires AllOwned(m, ms) && p in m.owners && ms[p] < m.owners[p]
    ensures AllOwned(m, ms + multiset{p})
  {
    forall q | q in ms + multiset{p} && q != NULL ensures q in m.owners && (ms + multiset{p})[q] <= m.owners[q] {
      assert (ms + multiset{p})[q] == ms[q] + if p == q then 1 else 0;
    }
  }

  lemma {:induction false} NullOwned(m: Memory, ms: multiset<Ptr>)
    requires AllOwned(m, ms)
    ensures AllOwned(m, ms + multiset{NULL})
  {
    forall q | q in ms + multiset{NULL} && q != NULL ensures q in m.owners && (ms + multiset{NULL})[q] <= m.owners[q] {
      assert (ms + multiset{NULL})[q] == ms[q];
    }
  }

  lemma {:induction false} FewerOwned(m: Memory, ms: multiset<Ptr>, ns: multiset<Ptr>)
    requires AllOwned(m, ms + ns)
    ensures AllOwned(m, ms)
  {
    forall q | q in ms && q != NULL ensures q in m.owners && ms[q] <= m.owners[q] {
      assert (ms + ns)[q] == ms[q] + ns[q];
    }
  }

  lemma {:induction false} NewestCount(s: seq<Ptr>, p: Ptr)
    requires |s| <= LENGTH
    ensures multiset(Newest(s + [p])) + (if |s| == LENGTH then multiset{s[0]} else multiset{}) == multiset(s) + multiset{p}
  {
    if |s| == LENGTH {
      assert (s + [p])[1..] == s[1..] + [p];
      assert s == [s[0]] + s[1..];
    }
  }

  /** Appending changes the number of references by those to the new packet and to the oldest one. */
  lemma {:induction false} PushOwned(m: Memory, v: View, v': View, r: Ring, p: Ptr)
    requires AllOwned(m, InUse(v) + multiset{p}) && |r.contents| <= LENGTH
    requires InUse(v') + multiset(r.contents) == InUse(v) + multiset(Newest(r.contents + [p]))
    ensures AllOwned(m, InUse(v')) && (Oldest(r) != NULL ==> AllOwned(m, InUse(v') + multiset{Oldest(r)}))
  {
    NewestCount(r.contents, p);
    var dropped := if |r.contents| == LENGTH then multiset{r.contents[0]} else multiset{};
    SumsCancel(InUse(v'), multiset(r.contents), InUse(v), multiset(Newest(r.contents + [p])), dropped, multiset{p});
    FewerOwned(m, InUse(v'), dropped);
  }

  lemma {:induction false} SumsCancel(a: multiset<Ptr>, b: multiset<Ptr>, c: multiset<Ptr>, d: multiset<Ptr>, e: multiset<Ptr>, f: multiset<Ptr>)
    requires a + b == c + d && d + e == b + f
    ensures a + e == c + f
  {
    forall p: Ptr ensures (a + e)[p] == (c + f)[p] {
      assert (a + b)[p] == (c + d)[p] && (d + e)[p] == (b + f)[p];
    }
  }

  /** New pbufs do no harm. */
  lemma {:induction false} GrowGood(m: Memory, m': Memory, v: View, least: nat)
    requires Good(m, v, least) && Grows(m, m', NULL) && m'.Valid() && AllOwned(m', InUse(v))
    ensures Good(m', v, least)
  {
    forall q | q in InUse(v) && q != NULL ensures Spares(m, m', q) {
      forall qs | m.Chain(q, qs) ensures NULL !in qs { ListNodes(m.next, q, qs); }
      GrowthSpares(m, m', NULL, q);
    }
    StillGood(m, m', v, least);
  }

  lemma {:induction false} NewIsUnused(m: Memory, v: View, least: nat, p: Ptr)
    requires Good(m, v, least) && p != NULL && p !in m.next
    ensures InUse(v)[p] == 0
  {
    assert m.owners.Keys == m.next.Keys;
  }

  lemma {:induction false} AloneIsUnused(m: Memory, v: View, least: nat, p: Ptr, b: seq<byte>)
    requires Good(m, v, least) && Loose(m, v, p, b) && Alone(m, p)
    ensures InUse(v)[p] == 0 && p in m.next && m.owners[p] == 1
  {
    assert m.owners.Keys == m.next.Keys;
    assert At(m.next, m.ref, m.owners, NULL, p);
  }

  /** Whoever has the only reference to a packet may write to it. */
  lemma {:induction false} WriteGood(m: Memory, v: View, least: nat, p: Ptr, b: seq<byte>, n: Node)
    requires Good(m, v, least) && Loose(m, v, p, b) && Alone(m, p) && p in m.node
    ensures Good(m.SetNode(p, n), v, least)
  {
    AloneIsUnused(m, v, least, p, b);
    NodesDoNotMatter(m, m.node[p := n]);
    forall q | q in InUse(v) && q != NULL ensures Spares(m, m.SetNode(p, n), q) { WriteSpares(m, p, n, q); }
    StillGood(m, m.SetNode(p, n), v, least);
  }

  /** A packet is appended to the ring towards the readers. */
  lemma {:induction false} PushRx(m: Memory, v: View, least: nat, p: Ptr, b: seq<byte>)
    requires Good(m, v, least) && Loose(m, v, p, b)
    ensures Good(m, v.(rx := Push(v.rx, p, b)), least) && Spare(m, v.(rx := Push(v.rx, p, b)), Oldest(v.rx))
  {
    KeptPush(m, v.rx, p, b);
    LooseOwned(m, InUse(v), p);
    PushOwned(m, v, v.(rx := Push(v.rx, p, b)), v.rx, p);
    if Oldest(v.rx) != NULL { HeldIs(m, v.rx.contents, v.rx.made[|v.rx.log.taken|..], Oldest(v.rx)); }
  }

  /** A packet is appended to the ring towards the stack. */
  lemma {:induction false} PushTx(m: Memory, v: View, least: nat, p: Ptr, b: seq<byte>)
    requires Good(m, v, least) && Sendable(m, v, least, p, b)
    ensures Good(m, v.(tx := Push(v.tx, p, b)), least) && Spare(m, v.(tx := Push(v.tx, p, b)), Oldest(v.tx))
  {
    KeptPush(m, v.tx, p, b);
    AloneMore(m, v.tx.contents, p, least);
    if p != NULL { LooseOwned(m, InUse(v), p); } else { NullOwned(m, InUse(v)); }
    PushOwned(m, v, v.(tx := Push(v.tx, p, b)), v.tx, p);
    if Oldest(v.tx) != NULL { HeldIs(m, v.tx.contents, v.tx.made[|v.tx.log.taken|..], Oldest(v.tx)); }
  }

  lemma {:induction false} AloneMore(m: Memory, ps: seq<Ptr>, p: Ptr, least: nat)
    requires AllAlone(m, ps, least) && |ps| <= LENGTH && (p != NULL ==> Alone(m, p) && p in m.node && least <= m.node[p].len)
    ensures AllAlone(m, Newest(ps + [p]), least)
  {
    forall q | q in Newest(ps + [p]) ensures q in ps || q == p {}
  }

  lemma {:induction false} PollsDoNotMatter(m: Memory, v: View, least: nat, p: Ptr, pending: nat)
    requires Good(m, v, least) && Spare(m, v, p)
    ensures Good(m, v.(pending := pending), least) && Spare(m, v.(pending := pending), p)
  {
  }

  /** A packet leaves: its reference becomes that of whoever takes it. */
  lemma {:induction false} TakenIsLoose(m: Memory, v: View, v': View, p: Ptr, b: seq<byte>)
    requires AllOwned(m, InUse(v)) && InUse(v') + multiset{p} == InUse(v) && (p != NULL ==> Holds(m, p, b))
    ensures AllOwned(m, InUse(v')) && (p != NULL ==> Loose(m, v', p, b))
  {
    FewerOwned(m, InUse(v'), multiset{p});
    assert p in InUse(v) && (InUse(v') + multiset{p})[p] == InUse(v')[p] + 1;
  }

  /** A reader takes the oldest packet. */
  lemma {:induction false} PopRx(m: Memory, v: View, least: nat)
    requires Good(m, v, least) && v.rx.contents != []
    ensures |v.rx.log.taken| < |v.rx.made|
    ensures var v', p, b := v.(rx := Pop(v.rx, 1)), v.rx.contents[0], v.rx.made[|v.rx.log.taken|];
            Good(m, v', least) && Out(v'.rx) == Out(v.rx) + [b] && (p != NULL ==> Loose(m, v', p, b))
  {
    var p, v', n := v.rx.contents[0], v.(rx := Pop(v.rx, 1)), |v.rx.log.taken|;
    KeptPop(m, v.rx, 1);
    assert v.rx.contents == [p] + v.rx.contents[1..] && v.rx.made[n..][0] == v.rx.made[n];
    TakenIsLoose(m, v, v', p, v.rx.made[n]);
  }

  /** The callback takes the `n` oldest packets. */
  lemma {:induction false} PopTx(m: Memory, v: View, least: nat, n: nat)
    requires Good(m, v, least) && v.batch.packets == [] && n <= |v.tx.contents|
    ensures |v.tx.log.taken| + n <= |v.tx.made|
    ensures Good(m, v.(tx := Pop(v.tx, n), batch := Batch(v.tx.contents[..n], Next(v.tx, n), v.batch.done)), least)
  {
    KeptPop(m, v.tx, n);
    var v' := v.(tx := Pop(v.tx, n), batch := Batch(v.tx.contents[..n], Next(v.tx, n), v.batch.done));
    assert v.tx.contents == v.tx.contents[..n] + v.tx.contents[n..];
    assert InUse(v') == InUse(v);
    assert v.batch.made == [] && v.batch.done + [] == v.batch.done;
  }

  /** One packet of the batch is passed on. */
  function Shorter(batch: Batch): Batch
    requires batch.packets != [] && batch.made != []
  {
    Batch(batch.packets[1..], batch.made[1..], batch.done + [batch.made[0]])
  }

  lemma {:induction false} PassOn(m: Memory, v: View, least: nat)
    requires Good(m, v, least) && v.batch.packets != []
    ensures v.batch.made != [] && Good(m, v.(batch := Shorter(v.batch)), least)
    ensures Sendable(m, v.(batch := Shorter(v.batch)), least, v.batch.packets[0], v.batch.made[0])
  {
    var p, v' := v.batch.packets[0], v.(batch := Shorter(v.batch));
    HeldTail(m, v.batch.packets, v.batch.made, 1);
    assert v.batch.done + v.batch.made == v'.batch.done + v'.batch.made;
    assert v.batch.packets == [p] + v'.batch.packets;
    assert p in v.batch.packets && forall q :: q in v'.batch.packets ==> q in v.batch.packets;
    TakenIsLoose(m, v, v', p, v.batch.made[0]);
  }

  /** The reference to `p` was given up, if there is such a packet. */
  ghost predicate GivenUp(m: Memory, m': Memory, p: Ptr) {
    if p == NULL then m' == m else exists ps :: IsList(m.next, p, ps) && p in m.owners && 0 < m.owners[p] && m' == AfterFree(m, p, ps)
  }

  lemma {:induction false} FreeGivesUp(m: Memory, p: Ptr, ps: seq<Ptr>)
    requires IsList(m.next, p, ps) && p in m.owners && 0 < m.owners[p] && p != NULL
    ensures GivenUp(m, AfterFree(m, p, ps), p)
  {
  }

  class Channel {
    const pbufs: Pbufs
    const tunnel: Tunnel

    /** All packets to be sent have so many bytes in their first link. */
    ghost const least: nat

    ghost var rxMade: seq<seq<byte>>
    ghost var txMade: seq<seq<byte>>
    ghost var batchMade: seq<seq<byte>>
    ghost var done: seq<seq<byte>>

    ghost const Repr: set<object>

    ghost predicate Ready()
      reads this, Repr
    {
      && this in Repr && pbufs in Repr && tunnel in Repr && tunnel.rx in Repr && tunnel.tx in Repr
      && tunnel.rx.data in Repr && tunnel.tx.data in Repr && tunnel.Valid()
    }

    ghost function Now(): View
      requires Ready()
      reads this, Repr
    {
      View(Ring(tunnel.rxLog, tunnel.rx.Contents(), rxMade), Ring(tunnel.txLog, tunnel.tx.Contents(), txMade),
           Batch(tunnel.batch, batchMade, done), tunnel.pending, tunnel.closed)
    }

    ghost predicate Valid()
      reads this, Repr
    {
      Ready() && Good(pbufs.mem, Now(), least)
    }

    /** Assignments to `pbufs.mem` do not change the rings. */
    twostate lemma {:induction false} RingsUntouched()
      requires old(Ready()) && unchanged(this, tunnel, tunnel.rx, tunnel.tx, tunnel.rx.data, tunnel.tx.data)
      ensures Ready() && Now() == old(Now())
    {
    }

    constructor (pbufs: Pbufs, ghost least: nat)
      requires pbufs.mem.Valid()
      ensures Valid() && this.pbufs == pbufs && this.least == least && fresh(Repr - {pbufs})
      ensures var r := Ring(Log([], []), [], []); Now() == View(r, r, Batch([], [], []), 0, false)
    {
      var t := new Tunnel();
      this.pbufs, tunnel, this.least := pbufs, t, least;
      rxMade, txMade, batchMade, done := [], [], [], [];
      Repr := {this, pbufs, t, t.rx, t.tx, t.rx.data, t.tx.data};
      new;
      ghost var r := Ring(Log([], []), [], []);
      assert Now() == View(r, r, Batch([], [], []), 0, false);
    }

    /** A packet is appended to the ring towards the readers; the oldest one may be deallocated. */
    method PutRx(p: Ptr, ghost b: seq<byte>)
      requires Valid() && Loose(pbufs.mem, Now(), p, b)
      modifies Repr
      ensures Valid() && Now() == old(Now()).(rx := Push(old(Now()).rx, p, b))
      ensures GivenUp(old(pbufs.mem), pbufs.mem, Oldest(old(Now()).rx))
    {
      PushRx(pbufs.mem, Now(), least, p, b);
      var freed := AppendRx(p, b);
      Drop(freed);
    }

    method AppendRx(p: Ptr, ghost b: seq<byte>) returns (freed: Ptr)
      requires Ready()
      modifies this, tunnel, tunnel.rx, tunnel.rx.data
      ensures Ready() && Now() == old(Now()).(rx := Push(old(Now()).rx, p, b)) && freed == Oldest(old(Now()).rx)
    {
      ghost var v := Now();
      freed := tunnel.Receive(p);
      rxMade := rxMade + [b];
      assert Now() == v.(rx := Push(v.rx, p, b));
    }

    /** The pbuf_free of pbuf_queue_append. */
    method Drop(p: Ptr)
      requires Valid() && Spare(pbufs.mem, Now(), p)
      modifies pbufs
      ensures Valid() && Now() == old(Now()) && GivenUp(old(pbufs.mem), pbufs.mem, p)
    {
      if p != NULL {
        ghost var m, v := pbufs.mem, Now();
        assert At(m.next, m.ref, m.owners, NULL, p);
        ghost var ps :| IsList(m.next, p, ps);
        FreeSpare(m, v, least, p, ps);
        var _ := pbufs.Free(p, ps);
        RingsUntouched();
      }
    }

    /** A packet is appended to the ring towards the stack, and a poll is asked for.  There may be
        no packet, as native/link.c does not look whether there was memory for it. */
    method PutTx(p: Ptr, accepts: bool, ghost b: seq<byte>)
      requires Valid() && Sendable(pbufs.mem, Now(), least, p, b)
      modifies Repr
      ensures Valid() && Now() == WithSent(old(Now()), p, accepts, b)
      ensures GivenUp(old(pbufs.mem), pbufs.mem, Oldest(old(Now()).tx))
    {
      PushTx(pbufs.mem, Now(), least, p, b);
      PollsDoNotMatter(pbufs.mem, Now().(tx := Push(Now().tx, p, b)), least, Oldest(Now().tx), WithSent(Now(), p, accepts, b).pending);
      var freed := AppendTx(p, accepts, b);
      Drop(freed);
    }

    method AppendTx(p: Ptr, accepts: bool, ghost b: seq<byte>) returns (freed: Ptr)
      requires Ready()
      modifies this, tunnel, tunnel.tx, tunnel.tx.data
      ensures Ready() && Now() == WithSent(old(Now()), p, accepts, b) && freed == Oldest(old(Now()).tx)
    {
      ghost var v := Now();
      freed := tunnel.Send(p, accepts);
      txMade := txMade + [b];
      assert Now() == WithSent(v, p, accepts, b);
    }

    /** What a reader finds; the packet is his to free. */
    method TakeRx() returns (r: Read, ghost b: seq<byte>)
      requires Valid()
      modifies this, tunnel, tunnel.rx, tunnel.rx.data
      ensures Valid()
      ensures var v := old(Now());
              if v.rx.contents == [] then r == (if v.closed then IsClosed else Waits) && Now() == v
              else && r == Got(v.rx.contents[0]) && |v.rx.log.taken| < |v.rx.made| && b == v.rx.made[|v.rx.log.taken|]
                   && Now() == v.(rx := Pop(v.rx, 1)) && Out(Now().rx) == Out(v.rx) + [b]
                   && (r.p != NULL ==> Loose(pbufs.mem, Now(), r.p, b))
    {
      ghost var v := Now();
      b := [];
      if v.rx.contents != [] {
        PopRx(pbufs.mem, v, least);
        b := rxMade[|tunnel.rxLog.taken|];
        assert v.rx.contents[..1] == [v.rx.contents[0]];
      }
      r := tunnel.TryRead();
      assert Now() == if v.rx.contents == [] then v else v.(rx := Pop(v.rx, 1));
    }

    /** The critical section of the poll callback. */
    method StartPoll()
      requires Valid() && 0 < tunnel.pending && tunnel.batch == []
      modifies this, tunnel, tunnel.tx, tunnel.tx.data
      ensures Valid() && !tunnel.txPolling
      ensures var v, n := old(Now()), |tunnel.batch|;
              && n <= BATCH && n <= |v.tx.contents| && (n < BATCH ==> n == |v.tx.contents|) && |v.tx.log.taken| + n <= |v.tx.made|
              && Now() == v.(tx := Pop(v.tx, n), batch := Batch(v.tx.contents[..n], Next(v.tx, n), v.batch.done), pending := 0)
    {
      ghost var v := Now();
      tunnel.PollTx();
      ghost var n := |tunnel.batch|;
      assert tunnel.batch == v.tx.contents[..n] && tunnel.tx.Contents() == v.tx.contents[n..];
      PopTx(pbufs.mem, v, least, n);
      batchMade := Next(v.tx, n);
      assert Now() == v.(tx := Pop(v.tx, n), batch := Batch(v.tx.contents[..n], Next(v.tx, n), v.batch.done), pending := 0);
    }

    /** The callback goes on with one packet of its batch. */
    method NextInHand() returns (p: Ptr, ghost b: seq<byte>)
      requires Valid() && tunnel.batch != []
      modifies this, tunnel
      ensures Valid()
      ensures var v := old(Now());
              v.batch.made != [] && p == v.batch.packets[0] && b == v.batch.made[0] && Now() == v.(batch := Shorter(v.batch))
      ensures Sendable(pbufs.mem, Now(), least, p, b)
    {
      ghost var v := Now();
      PassOn(pbufs.mem, v, least);
      b := batchMade[0];
      p := tunnel.Deliver();
      batchMade, done := batchMade[1..], done + [b];
      assert Ready();
      assert Now() == v.(batch := Shorter(v.batch));
    }

    /** link_close and udp_conn_close */
    method Close()
      requires Valid()
      modifies tunnel
      ensures Valid() && Now() == old(Now()).(closed := true)
    {
      ghost var v := Now();
      tunnel.Close();
      assert Now() == v.(closed := true);
    }

    /** Other users of pbufs, who leave what is held here alone. */
    method Elsewhere(m': Memory)
      requires Valid() && Bears(pbufs.mem, m', Now())
      modifies pbufs
      ensures Valid() && pbufs.mem == m' && Now() == old(Now())
    {
      ghost var v := Now();
      StillGood(pbufs.mem, m', v, least);
      pbufs.mem := m';
      RingsUntouched();
    }
  }

  /** A packet was appended towards the stack; at most one callback is pending. */
  function WithSent(v: View, p: Ptr, accepts: bool, b: seq<byte>): View {
    v.(tx := Push(v.tx, p, b), pending := if v.pending == 0 && accepts then 1 else v.pending)
  }
}
