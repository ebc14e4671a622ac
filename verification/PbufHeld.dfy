/** Chains that somebody holds, while others work on memory. */
module PbufHeld {
  import opened Bytes
  import opened Lists
  import opened PbufGraph
  import opened PbufBytes
  import opened PbufMemory
  import opened PbufAlloc
  import opened PbufResize

  /** An owner of `p` has a chain that carries `b`. */
  ghost predicate Holds(m: Memory, p: Ptr, b: seq<byte>) {
    p in m.owners && 0 < m.owners[p] && exists ps :: Carries(m, p, ps, b)
  }

  /** There is one reference to `p` only. */
  ghost predicate Alone(m: Memory, p: Ptr) {
    p in m.ref && m.ref[p] == 1
  }

  /** The chain from `q` stays as it is, and its owner's reference is not given up. */
  ghost predicate Spares(m: Memory, m': Memory, q: Ptr) {
    && (forall qs :: m.Chain(q, qs) ==> m'.Chain(q, qs) && SameNodes(m, m', qs))
    && (q in m.owners && 0 < m.owners[q] ==> q in m'.owners && 0 < m'.owners[q])
    && (Alone(m, q) ==> Alone(m', q))
  }

  ghost predicate SameNodes(m: Memory, m': Memory, qs: seq<Ptr>) {
    forall x :: x in qs ==> x in m.node && x in m'.node && m'.node[x] == m.node[x]
  }

  lemma {:induction false} CarriesStill(m: Memory, m': Memory, q: Ptr, qs: seq<Ptr>, b: seq<byte>)
    requires Carries(m, q, qs, b) && m'.Chain(q, qs) && SameNodes(m, m', qs)
    ensures Carries(m', q, qs, b)
  {
    FlatFrame(m.node, m'.node, qs);
    TotalsFrame(m.node, m'.node, qs);
  }

  lemma {:induction false} HoldsStill(m: Memory, m': Memory, q: Ptr, b: seq<byte>)
    requires Holds(m, q, b) && Spares(m, m', q)
    ensures Holds(m', q, b)
  {
    var qs :| Carries(m, q, qs, b);
    assert m.Chain(q, qs);
    CarriesStill(m, m', q, qs, b);
  }

  // ---- who spares what -----------------------------------------------------------------------

  /** pbuf_free by an owner of `p` deallocates nothing of a chain with another owner. */
  lemma {:induction false} FreeKeepsOthers(m: Memory, p: Ptr, ps: seq<Ptr>, q: Ptr, qs: seq<Ptr>, i: nat)
    requires m.Valid() && p in m.next && 0 < m.owners[p] && IsList(m.next, p, ps)
    requires q in m.next && IsList(m.next, q, qs) && (if p == q then 1 else 0) < m.owners[q] && i < |qs|
    ensures qs[i] in m.next && qs[i] in AfterFree(m, p, ps).next
    decreases i
  {
    ListNodes(m.next, q, qs);
    FreedExactlyUnreferenced(m, p, ps, qs[i]);
    if 0 < i {
      FreeKeepsOthers(m, p, ps, q, qs, i - 1);
      ListAt(m.next, q, qs, i - 1);
      assert qs[i - 1] in Preds(m.next, qs[i]);
    }
  }

  lemma {:induction false} FreeSparesChain(m: Memory, p: Ptr, ps: seq<Ptr>, q: Ptr, qs: seq<Ptr>)
    requires m.Valid() && p in m.next && 0 < m.owners[p] && IsList(m.next, p, ps)
    requires q in m.next && m.Chain(q, qs) && (if p == q then 1 else 0) < m.owners[q]
    ensures AfterFree(m, p, ps).Chain(q, qs) && SameNodes(m, AfterFree(m, p, ps), qs)
  {
    var m' := AfterFree(m, p, ps);
    forall x | x in qs ensures x in m'.next && x in m.next {
      var i :| 0 <= i < |qs| && qs[i] == x;
      FreeKeepsOthers(m, p, ps, q, qs, i);
    }
    ListFrame(m.next, m'.next, q, qs);
  }

  lemma {:induction false} BehindAnother(next: map<Ptr, Ptr>, t: Ptr, q: Ptr, qs: seq<Ptr>)
    requires IsList(next, q, qs) && t in qs && q != t
    ensures Preds(next, t) != {}
  {
    var i :| 0 <= i < |qs| && qs[i] == t;
    ListNodes(next, q, qs);
    ListAt(next, q, qs, i - 1);
    assert qs[i - 1] in Preds(next, t);
  }

  /** A pbuf with one reference, that of an owner, is on no other chain. */
  lemma {:induction false} AloneIsApart(m: Memory, t: Ptr, q: Ptr, qs: seq<Ptr>)
    requires m.Valid() && t in m.owners && 0 < m.owners[t] && Alone(m, t) && q != t && IsList(m.next, q, qs)
    ensures t !in qs && Preds(m.next, t) == {}
  {
    assert At(m.next, m.ref, m.owners, NULL, t);
    if t in qs { BehindAnother(m.next, t, q, qs); }
  }

  lemma {:induction false} FreeSpares(m: Memory, p: Ptr, ps: seq<Ptr>, q: Ptr)
    requires m.Valid() && p in m.next && 0 < m.owners[p] && IsList(m.next, p, ps)
    requires q in m.next && (if p == q then 1 else 0) < m.owners[q]
    ensures Spares(m, AfterFree(m, p, ps), q)
    ensures q in AfterFree(m, p, ps).owners && AfterFree(m, p, ps).owners[q] == m.owners[q] - if p == q then 1 else 0
  {
    var m' := AfterFree(m, p, ps);
    forall qs | m.Chain(q, qs) ensures m'.Chain(q, qs) && SameNodes(m, m', qs) { FreeSparesChain(m, p, ps, q, qs); }
    assert At(m.next, m.ref, m.owners, NULL, q);
    var qs :| IsList(m.next, q, qs);
    ListNodes(m.next, q, qs);
    assert qs != [];
    FreeKeepsOthers(m, p, ps, q, qs, 0);
    if Alone(m, q) { AloneIsApart(m, q, p, ps); }
  }

  /** Everything there was is still there, but for the fields of `t`. */
  ghost predicate Grows(m: Memory, m': Memory, t: Ptr) {
    && (forall x :: x in m.next ==> x in m'.next && m'.next[x] == m.next[x])
    && (forall x :: x in m.ref ==> x in m'.ref && m'.ref[x] == m.ref[x])
    && (forall x :: x in m.node ==> x in m'.node && (x != t ==> m'.node[x] == m.node[x]))
  }

  lemma {:induction false} GrowthSpares(m: Memory, m': Memory, t: Ptr, q: Ptr)
    requires m.Valid() && Grows(m, m', t) && q in m'.owners && 0 < m'.owners[q]
    requires forall qs :: m.Chain(q, qs) ==> t !in qs
    ensures Spares(m, m', q)
  {
    forall qs | m.Chain(q, qs) ensures m'.Chain(q, qs) && SameNodes(m, m', qs) {
      ListNodes(m.next, q, qs);
      ListFrame(m.next, m'.next, q, qs);
    }
  }

  /** Fields of a pbuf with one reference may be written by its owner. */
  lemma {:induction false} WriteSpares(m: Memory, t: Ptr, n: Node, q: Ptr)
    requires m.Valid() && t in m.owners && 0 < m.owners[t] && Alone(m, t) && q != t && q in m.owners && 0 < m.owners[q]
    ensures Spares(m, m.SetNode(t, n), q)
  {
    forall qs | m.Chain(q, qs) ensures t !in qs { AloneIsApart(m, t, q, qs); }
    GrowthSpares(m, m.SetNode(t, n), t, q);
  }

  // ---- sets of chains -------------------------------------------------------------------------

  /** Each pbuf of `ps`, NULL left out, is held with the bytes of `bs`. */
  ghost predicate AllHeld(m: Memory, ps: seq<Ptr>, bs: seq<seq<byte>>) {
    |ps| == |bs| && forall i :: 0 <= i < |ps| && ps[i] != NULL ==> Holds(m, ps[i], bs[i])
  }

  /** They have one reference each, and `least` bytes in the first link. */
  ghost predicate AllAlone(m: Memory, ps: seq<Ptr>, least: nat) {
    forall p :: p in ps && p != NULL ==> Alone(m, p) && p in m.node && least <= m.node[p].len
  }

  ghost predicate AllSpared(m: Memory, m': Memory, ps: seq<Ptr>) {
    forall p :: p in ps && p != NULL ==> Spares(m, m', p)
  }

  lemma {:induction false} HeldIs(m: Memory, ps: seq<Ptr>, bs: seq<seq<byte>>, p: Ptr)
    requires m.Valid() && AllHeld(m, ps, bs) && p in ps && p != NULL
    ensures p in m.next && p in m.owners && 0 < m.owners[p]
  {
    var i :| 0 <= i < |ps| && ps[i] == p;
    assert Holds(m, ps[i], bs[i]);
  }

  lemma {:induction false} AllHeldStill(m: Memory, m': Memory, ps: seq<Ptr>, bs: seq<seq<byte>>, least: nat)
    requires AllHeld(m, ps, bs) && AllSpared(m, m', ps)
    ensures AllHeld(m', ps, bs) && (AllAlone(m, ps, least) ==> AllAlone(m', ps, least))
  {
    forall i | 0 <= i < |ps| && ps[i] != NULL ensures Holds(m', ps[i], bs[i]) { HoldsStill(m, m', ps[i], bs[i]); }
    if AllAlone(m, ps, least) {
      forall p | p in ps && p != NULL ensures Alone(m', p) && p in m'.node && least <= m'.node[p].len {
        var i :| 0 <= i < |ps| && ps[i] == p;
        var qs :| Carries(m, p, qs, bs[i]);
        assert m.Chain(p, qs);
        ListNodes(m.next, p, qs);
        assert p in qs && SameNodes(m, m', qs);
      }
    }
  }

  /** There is a reference for each time that a pbuf occurs. */
  ghost predicate AllOwned(m: Memory, ms: multiset<Ptr>) {
    forall p :: p in ms && p != NULL ==> p in m.owners && ms[p] <= m.owners[p]
  }

  /** pbuf_free by an owner that is not among them spares all. */
  lemma {:induction false} FreeSparesAll(m: Memory, p: Ptr, ps: seq<Ptr>, ms: multiset<Ptr>, qs: seq<Ptr>)
    requires m.Valid() && p in m.next && IsList(m.next, p, ps)
    requires AllOwned(m, ms + multiset{p}) && (forall q :: q in qs ==> q in ms)
    ensures p != NULL && 0 < m.owners[p] && AfterFree(m, p, ps).Valid() && AllSpared(m, AfterFree(m, p, ps), qs)
  {
    assert p in ms + multiset{p} && NULL !in m.next;
    FreeValid(m, p, ps);
    forall q | q in qs && q != NULL ensures Spares(m, AfterFree(m, p, ps), q) {
      assert q in ms + multiset{p} && m.owners.Keys == m.next.Keys;
      assert (ms + multiset{p})[q] == ms[q] + if p == q then 1 else 0;
      FreeSpares(m, p, ps, q);
    }
  }

  lemma {:induction false} FreeOwnsAll(m: Memory, p: Ptr, ps: seq<Ptr>, ms: multiset<Ptr>)
    requires m.Valid() && p in m.next && IsList(m.next, p, ps) && AllOwned(m, ms + multiset{p})
    ensures p != NULL && 0 < m.owners[p] && AllOwned(AfterFree(m, p, ps), ms)
  {
    assert p in ms + multiset{p} && NULL !in m.next;
    forall q | q in ms && q != NULL ensures q in AfterFree(m, p, ps).owners && ms[q] <= AfterFree(m, p, ps).owners[q] {
      assert q in ms + multiset{p} && m.owners.Keys == m.next.Keys;
      assert (ms + multiset{p})[q] == ms[q] + if p == q then 1 else 0;
      FreeSpares(m, p, ps, q);
    }
  }

  // ---- headers --------------------------------------------------------------------------------

  /** pbuf_remove_header on a chain: the bytes lose their front. */
  lemma {:induction false} ChainWithoutHeader(m: Memory, p: Ptr, ps: seq<Ptr>, a: seq<byte>, b: seq<byte>)
    requires m.Valid() && Carries(m, p, ps, a + b) && |a + b| < 0x1_0000 && p in m.node && 0 < |a| <= m.node[p].len
    ensures Carries(m.SetNode(p, WithoutHeader(m.node[p], |a|)), p, ps, b)
  {
    ListNodes(m.next, p, ps);
    ListDistinct(m.next, p, ps);
    var n, m' := WithoutHeader(m.node[p], |a|), m.SetNode(p, WithoutHeader(m.node[p], |a|));
    assert ps != [] && ps[0] == p && p !in ps[1..];
    FlatFrame(m.node, m'.node, ps[1..]);
    assert BytesOf(n) == BytesOf(m.node[p])[|a|..];
    assert (a + b)[|a|..] == b;
    assert Flat(m'.node, ps) == b;
    forall k | 0 <= k < |ps| ensures TotalAt(m'.node, ps, k) {
      assert TotalAt(m.node, ps, k);
      if k == 0 {
        assert ps[0..] == ps;
      } else {
        assert forall x :: x in ps[k..] ==> x in ps[1..];
        FlatFrame(m.node, m'.node, ps[k..]);
      }
    }
  }
}
