/** What pbuf_dechain of lwip/core/pbuf.c returns. */
module PbufDechain {
  // It goes by the result of pbuf_free, which counts the deallocated pbufs in 8 bits.

  import opened Bytes
  import opened Lists
  import opened PbufGraph
  import opened PbufBytes
  import opened PbufMemory

  /** Memory after pbuf_dechain of `p`, with the chain `qs` behind it. */
  ghost function Dechained(m: Memory, p: Ptr, qs: seq<Ptr>): Memory
    requires p in m.next && p in m.node && m.next[p] != NULL && m.next[p] in m.owners
  {
    AfterFree(AfterCut(m, p).SetNode(p, m.node[p].(totLen := m.node[p].len)), m.next[p], qs)
  }

  /** The pointer that is returned. */
  ghost function Tail(m: Memory, p: Ptr, qs: seq<Ptr>): Ptr
    requires p in m.next
  {
    if Low8(Unshared(m.ref, qs)) == 0 then m.next[p] else NULL
  }

  /** The pointer is one to a deallocated pbuf exactly if their number is a positive multiple of
      256; otherwise it is NULL exactly if the tail was deallocated. */
  lemma {:induction false} TailDangles(m: Memory, p: Ptr, qs: seq<Ptr>)
    requires m.Valid() && p in m.next && m.next[p] != NULL && m.next[p] in m.owners && IsList(m.next, m.next[p], qs)
    ensures var n := Unshared(m.ref, qs);
            && (Tail(m, p, qs) != NULL && Tail(m, p, qs) !in Dechained(m, p, qs).next <==> 0 < n && n % 0x100 == 0)
            && (n % 0x100 != 0 || n == 0 ==> (Tail(m, p, qs) == NULL <==> m.next[p] !in Dechained(m, p, qs).next))
  {
    assert At(m.next, m.ref, m.owners, NULL, p);
    ListNodes(m.next, m.next[p], qs);
    var q, n := m.next[p], Unshared(m.ref, qs);
    if 0 < n { assert qs[..n][0] == q; }
  }

  /** The memory after the cut, before the tail is given up. */
  ghost function CutOff(m: Memory, p: Ptr): Memory
    requires p in m.next && p in m.node && (m.next[p] != NULL ==> m.next[p] in m.owners)
  {
    AfterCut(m, p).SetNode(p, m.node[p].(totLen := m.node[p].len))
  }

  lemma {:induction false} CutOffIs(m: Memory, p: Ptr, qs: seq<Ptr>)
    requires m.Valid() && IsList(m.next, p, [p] + qs) && qs != []
    ensures p in m.next && p in m.node && p !in qs && m.next[p] == qs[0] && qs[0] in m.owners
    ensures var m1 := CutOff(m, p);
            && m1.Valid() && IsList(m1.next, p, [p]) && IsList(m1.next, qs[0], qs) && 0 < m1.owners[qs[0]] && m1.ref == m.ref
            && qs[0] in m1.next && m1.node == m.node[p := m.node[p].(totLen := m.node[p].len)]
  {
    var ps := [p] + qs;
    assert ps[1..] == qs && [p][1..] == [];
    ListDistinct(m.next, p, ps);
    assert forall i :: 0 <= i < |qs| ==> ps[i + 1] == qs[i];
    ListNodes(m.next, m.next[p], qs);
    CutValid(m, p);
    RestAfterCut(m, p, qs);
    NodesDoNotMatter(AfterCut(m, p), CutOff(m, p).node);
  }

  /** Afterwards `p` is a packet of its own with the bytes of the first link, and the tail, if it was
      not deallocated, is one with the bytes of the others; all tot_len fields are right. */
  lemma {:induction false} DechainedBytes(m: Memory, p: Ptr, qs: seq<Ptr>)
    requires m.Valid() && m.Chain(p, [p] + qs) && Totals(m.node, [p] + qs) && qs != []
    ensures p in m.next && m.next[p] == qs[0] && qs[0] in m.owners && p in m.node && AllIn(m.node, qs) && Dechained(m, p, qs).Valid()
    ensures Carries(Dechained(m, p, qs), p, [p], BytesOf(m.node[p]))
    ensures Unshared(m.ref, qs) == 0 ==> Carries(Dechained(m, p, qs), qs[0], qs, Flat(m.node, qs))
  {
    CutOffIs(m, p, qs);
    var m1, m2 := CutOff(m, p), Dechained(m, p, qs);
    assert m2 == AfterFree(m1, qs[0], qs);
    FreeValid(m1, qs[0], qs);
    FreeKeepsList(m1, qs[0], qs, p, [p]);
    OneLink(m2, p);
    assert forall x :: x in qs ==> x in [p] + qs;
    if Unshared(m.ref, qs) == 0 { TailStays(m, m1, p, qs); }
  }

  lemma {:induction false} OneLink(m: Memory, p: Ptr)
    requires m.Chain(p, [p]) && p in m.node && m.node[p].totLen == m.node[p].len
    ensures Carries(m, p, [p], BytesOf(m.node[p]))
  {
    assert [p][1..] == [] && [p][0..] == [p];
    assert Flat(m.node, [p]) == BytesOf(m.node[p]);
    assert TotalAt(m.node, [p], 0);
  }

  lemma {:induction false} TailStays(m: Memory, m1: Memory, p: Ptr, qs: seq<Ptr>)
    requires AllIn(m.node, [p] + qs) && Totals(m.node, [p] + qs) && qs != [] && p !in qs && m1.ref == m.ref && Unshared(m.ref, qs) == 0
    requires m1.node.Keys == m.node.Keys && forall x :: x in qs ==> m1.node[x] == m.node[x]
    requires IsList(m1.next, qs[0], qs) && qs[0] in m1.owners && 0 < m1.owners[qs[0]]
    ensures AllIn(m.node, qs) && Carries(AfterFree(m1, qs[0], qs), qs[0], qs, Flat(m.node, qs))
  {
    var ps, m2 := [p] + qs, AfterFree(m1, qs[0], qs);
    assert NodeSet(qs[..0]) == {};
    assert m2.next == m1.next && m2.node == m1.node;
    assert AllIn(m.node, qs) by { assert forall x :: x in qs ==> x in ps; }
    forall i | 0 <= i < |qs| ensures TotalAt(m.node, qs, i) {
      assert TotalAt(m.node, ps, i + 1) && ps[i + 1..] == qs[i..];
    }
    FlatFrame(m.node, m2.node, qs);
    TotalsFrame(m.node, m2.node, qs);
  }

  // ---- a chain for which it happens -----------------------------------------------------------

  /** The pbufs `1` to `n`, empty and linked in this order; only the first has an owner. */
  ghost function Line(n: nat): Memory {
    Memory(map p | p in From(1, n) :: if p < n then p + 1 else NULL,
           map p | p in From(1, n) :: 1,
           map p | p in From(1, n) :: Node(0, 0, 0, [], Pool, false),
           map p | p in From(1, n) :: if p == 1 then 1 else 0)
  }

  function From(i: nat, n: nat): (ps: seq<Ptr>)
    requires 1 <= i
    ensures |ps| == if i <= n then n - i + 1 else 0
    ensures forall p :: p in ps <==> i <= p <= n
    decreases n + 1 - i
  {
    if i <= n then [i] + From(i + 1, n) else []
  }

  lemma {:induction false} LineList(n: nat, i: nat)
    requires 1 <= i <= n + 1
    ensures IsList(Line(n).next, if i <= n then i else NULL, From(i, n))
    ensures Unshared(Line(n).ref, From(i, n)) == |From(i, n)|
    decreases n + 1 - i
  {
    if i <= n { LineList(n, i + 1); }
  }

  lemma {:induction false} LineValid(n: nat)
    ensures Line(n).Valid()
  {
    var m := Line(n);
    forall p | p in m.next ensures At(m.next, m.ref, m.owners, NULL, p) {
      LineList(n, p);
      assert Preds(m.next, p) == if p == 1 then {} else {p - 1};
    }
  }

  /** 257 pbufs of which the application keeps the first: pbuf_dechain deallocates 256 and returns
      a pointer to the first of these. */
  lemma {:induction false} LongTailDangles()
    ensures var m, qs := Line(257), From(2, 257);
            && m.Valid() && IsList(m.next, m.next[1], qs) && m.owners[1] == 1
            && Tail(m, 1, qs) == 2 && 2 !in Dechained(m, 1, qs).next
  {
    LineValid(257);
    LineList(257, 2);
    TailDangles(Line(257), 1, From(2, 257));
  }
}
