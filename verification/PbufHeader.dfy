/** pbuf_free_header of lwip/core/pbuf.c: links are cut off the front of a chain one by one.

    The bytes lose their front, and whoever else refers to a link keeps it; the lemmas follow the
    loop of the function round by round. */
module PbufHeader {
  import opened Bytes
  import opened Lists
  import opened PbufGraph
  import opened PbufBytes
  import opened PbufMemory
  import opened PbufResize

  ghost predicate CanDrop(m: Memory, p: Ptr) {
    Linked(m, p) && 0 < m.owners[p]
  }

  /** The first link is cut off and the reference to it given up; its successor is now held. */
  ghost function AfterDrop(m: Memory, p: Ptr): Memory
    requires CanDrop(m, p)
  {
    AfterFree(AfterCut(m, p), p, [p])
  }

  /** `m'` is `m` without `ps[..k]`: of these, pbufs with another reference stay allocated, on
      their own. */
  ghost predicate Dropped(m: Memory, m': Memory, ps: seq<Ptr>, k: nat) {
    && k <= |ps| && m'.next.Keys <= m.next.Keys
    && (forall x :: x in m.next && x !in ps[..k] ==> Untouched(m, m', x))
    && (forall x :: x in m.next && x in ps[..k] ==> Released(m, m', x))
  }

  ghost predicate Untouched(m: Memory, m': Memory, x: Ptr) {
    && x in m.next && x in m'.next && m'.next[x] == m.next[x]
    && x in m.ref && x in m'.ref && m'.ref[x] == m.ref[x]
    && x in m.node && x in m'.node && m'.node[x] == m.node[x]
  }

  ghost predicate Released(m: Memory, m': Memory, x: Ptr) {
    x in m.ref && x in m.node &&
    if m.ref[x] == 1 then x !in m'.next
    else x in m'.next && m'.next[x] == NULL && x in m'.ref && m'.ref[x] + 1 == m.ref[x] && x in m'.node && m'.node[x] == m.node[x]
  }

  lemma {:induction false} DropCut(m: Memory, p: Ptr, ps: seq<Ptr>)
    requires m.Valid() && ps != [] && IsList(m.next, p, ps) && p in m.owners && 0 < m.owners[p]
    ensures CanDrop(m, p)
    ensures var cut := AfterCut(m, p);
            && cut.Valid() && p in cut.next && 0 < cut.owners[p] && IsList(cut.next, p, [p])
            && IsList(cut.next, Head(ps[1..]), ps[1..]) && cut.node == m.node && cut.ref == m.ref
            && cut.next == m.next[p := NULL] && m.next[p] == Head(ps[1..])
            && (ps[1..] != [] ==> ps[1] in cut.owners && 0 < cut.owners[ps[1]])
  {
    CutParts(m, p, ps, 0);
    ListAt(m.next, p, ps, 0);
    ListDistinct(m.next, p, ps);
    assert ps[..1] == [p] && ps[0 + 1..] == ps[1..];
    assert m.next[p] == NULL ==> m.next[p := NULL] == m.next;
  }

  lemma {:induction false} DropIs(m: Memory, p: Ptr, ps: seq<Ptr>)
    requires m.Valid() && ps != [] && IsList(m.next, p, ps) && p in m.owners && 0 < m.owners[p]
    ensures CanDrop(m, p)
    ensures var m' := AfterDrop(m, p);
            && m'.Valid() && m'.Chain(Head(ps[1..]), ps[1..]) && (ps[1..] != [] ==> ps[1] in m'.owners && 0 < m'.owners[ps[1]])
            && (forall x :: x in m.next && x != p ==> Untouched(m, m', x)) && Released(m, m', p) && m'.next.Keys <= m.next.Keys
  {
    DropCut(m, p, ps);
    var cut, m' := AfterCut(m, p), AfterDrop(m, p);
    FreeValid(cut, p, [p]);
    ListNodes(m.next, p, ps);
    ListDistinct(m.next, p, ps);
    FreeKeepsList(cut, p, [p], Head(ps[1..]), ps[1..]);
    DropOne(cut, p);
    assert Released(m, m', p);
    forall x | x in m.next && x != p ensures Untouched(m, m', x) {}
  }

  lemma {:induction false} DropOne(m: Memory, p: Ptr)
    requires m.Valid() && p in m.next && 0 < m.owners[p] && IsList(m.next, p, [p])
    ensures var m' := AfterFree(m, p, [p]);
            && (forall x :: x in m.next && x != p ==> Untouched(m, m', x)) && m'.next.Keys <= m.next.Keys
            && (m.ref[p] == 1 ==> p !in m'.next)
            && (m.ref[p] != 1 ==> p in m'.next && m'.next[p] == m.next[p] && p in m'.ref && m'.ref[p] + 1 == m.ref[p] && p in m'.node && m'.node[p] == m.node[p])
            && forall x :: x in m.owners && x != p ==> x in m'.owners && m'.owners[x] == m.owners[x]
  {
    assert At(m.next, m.ref, m.owners, NULL, p);
    if m.ref[p] == 1 {
      assert Unshared(m.ref, [p]) == 1 by { assert [p][1..] == []; }
      assert [p][..1] == [p];
      assert NodeSet([p]) == {p};
    } else {
      FreeOfShared(m, p, [p]);
    }
  }

  lemma {:induction false} DroppedNext(m: Memory, m': Memory, m'': Memory, ps: seq<Ptr>, k: nat)
    requires Dropped(m, m', ps, k) && k < |ps| && ps[k] in m.next && forall i, j :: 0 <= i < j < |ps| ==> ps[i] != ps[j]
    requires (forall x :: x in m'.next && x != ps[k] ==> Untouched(m', m'', x)) && Released(m', m'', ps[k]) && m''.next.Keys <= m'.next.Keys
    ensures Dropped(m, m'', ps, k + 1)
  {
    var q := ps[k];
    assert q !in ps[..k];
    assert ps[..k + 1] == ps[..k] + [q];
    forall x | x in m.next && x in ps[..k + 1] ensures Released(m, m'', x) {
      if x != q && m.ref[x] != 1 { assert Untouched(m', m'', x); }
    }
    forall x | x in m.next && x !in ps[..k + 1] ensures Untouched(m, m'', x) {
      assert Untouched(m, m', x) && Untouched(m', m'', x);
    }
  }

  /** The links that were not reached still hold their bytes. */
  lemma {:induction false} DroppedBytes(m: Memory, m': Memory, p: Ptr, ps: seq<Ptr>, k: nat)
    requires m.Chain(p, ps) && Dropped(m, m', ps, k) && m'.Chain(Head(ps[k..]), ps[k..])
    ensures AllIn(m.node, ps[k..]) && Flat(m'.node, ps[k..]) == Flat(m.node, ps[k..])
    ensures Totals(m.node, ps) ==> Totals(m'.node, ps[k..])
  {
    PartsDisjoint(m.next, p, ps, k);
    ListNodes(m.next, p, ps);
    forall x | x in ps[k..] ensures m'.node[x] == m.node[x] { assert Untouched(m, m', x); }
    FlatFrame(m.node, m'.node, ps[k..]);
    if Totals(m.node, ps) {
      TotalsSuffix(m.node, ps, k);
      TotalsFrame(m.node, m'.node, ps[k..]);
    }
  }

  /** Hiding `n` bytes of the first link hides them from the chain. */
  lemma {:induction false} HeaderOfChain(m: Nodes, p: Ptr, qs: seq<Ptr>, n: nat)
    requires AllIn(m, [p] + qs) && p !in qs && AllIn(m, qs) && p in m && n <= m[p].len
    ensures var m' := m[p := WithoutHeader(m[p], n)];
            Flat(m', [p] + qs) == Flat(m, [p] + qs)[n..]
  {
    var m' := m[p := WithoutHeader(m[p], n)];
    FlatFrame(m, m', qs);
    assert ([p] + qs)[1..] == qs;
    assert BytesOf(m'[p]) == BytesOf(m[p])[n..];
  }

  lemma {:induction false} TotalsOfHeader(m: Nodes, m': Nodes, p: Ptr, qs: seq<Ptr>, n: nat)
    requires AllIn(m, [p] + qs) && p !in qs && AllIn(m, qs) && p in m && n <= m[p].len && m' == m[p := WithoutHeader(m[p], n)]
    requires Totals(m, [p] + qs) && |Flat(m', [p] + qs)| == |Flat(m, [p] + qs)| - n
    ensures Totals(m', [p] + qs)
  {
    var ps := [p] + qs;
    forall k | 0 <= k < |ps| ensures TotalAt(m', ps, k) {
      assert TotalAt(m, ps, k);
      if k == 0 {
        assert ps[0..] == ps;
        Low16Plus(|Flat(m, ps)|, -(n as int));
      } else {
        assert ps[k..] == qs[k - 1..];
        FlatFrame(m, m', qs[k - 1..]);
      }
    }
  }

  function Behind(b: seq<byte>, n: nat): seq<byte> {
    if n <= |b| then b[n..] else []
  }

  /** `k` links were cut off and `left` bytes are still to go. */
  ghost predicate Freeing(m: Memory, m': Memory, ps: seq<Ptr>, size: nat, k: nat, left: int) {
    && m'.Valid() && Dropped(m, m', ps, k) && m'.Chain(Head(ps[k..]), ps[k..])
    && (k < |ps| ==> ps[k] in m'.owners && 0 < m'.owners[ps[k]])
    && AllIn(m.node, ps[..k]) && left == size - |Flat(m.node, ps[..k])|
  }

  lemma {:induction false} FreeingStart(m: Memory, p: Ptr, ps: seq<Ptr>, size: nat)
    requires m.Valid() && m.Chain(p, ps) && (ps != [] ==> p in m.owners && 0 < m.owners[p])
    ensures p == Head(ps) && Freeing(m, m, ps, size, 0, size)
  {
    ListNodes(m.next, p, ps);
    assert ps[..0] == [] && ps[0..] == ps;
  }

  lemma {:induction false} FreeingRound(m: Memory, m': Memory, p: Ptr, ps: seq<Ptr>, size: nat, k: nat, left: int, k': nat, left': int)
    requires m.Valid() && m.Chain(p, ps) && Freeing(m, m', ps, size, k, left) && k < |ps|
    requires k' == k + 1 && ps[k] in m'.node && left' == left - m'.node[ps[k]].len
    ensures CanDrop(m', ps[k]) && m'.next[ps[k]] == Head(ps[k'..]) && Freeing(m, AfterDrop(m', ps[k]), ps, size, k', left')
  {
    assert ps[k..] != [] && ps[k..][1..] == ps[k'..] && ps[k..][0] == ps[k];
    DropIs(m', ps[k], ps[k..]);
    DropCut(m', ps[k], ps[k..]);
    FreeingNext(m, m', p, ps, size, k, left);
  }

  lemma {:induction false} FreeingNext(m: Memory, m': Memory, p: Ptr, ps: seq<Ptr>, size: nat, k: nat, left: int)
    requires m.Valid() && m.Chain(p, ps) && Freeing(m, m', ps, size, k, left) && k < |ps| && CanDrop(m', ps[k])
    requires var m'' := AfterDrop(m', ps[k]);
             (forall x :: x in m'.next && x != ps[k] ==> Untouched(m', m'', x)) && Released(m', m'', ps[k]) && m''.next.Keys <= m'.next.Keys
    ensures Dropped(m, AfterDrop(m', ps[k]), ps, k + 1)
    ensures AllIn(m.node, ps[..k + 1]) && ps[k] in m'.node && |Flat(m.node, ps[..k + 1])| == |Flat(m.node, ps[..k])| + m'.node[ps[k]].len
  {
    ListDistinct(m.next, p, ps);
    ListNodes(m.next, p, ps);
    DroppedNext(m, m', AfterDrop(m', ps[k]), ps, k);
    FlatStep(m.node, ps, k);
    assert Untouched(m, m', ps[k]);
  }

  lemma {:induction false} FreeingDone(m: Memory, m': Memory, p: Ptr, ps: seq<Ptr>, size: nat, k: nat, left: nat)
    requires m.Valid() && m.Chain(p, ps) && Totals(m.node, ps) && Freeing(m, m', ps, size, k, left) && (left == 0 || k == |ps|)
    ensures Carries(m', Head(ps[k..]), ps[k..], Behind(Flat(m.node, ps), size))
    ensures k == |ps| ==> size == |Flat(m.node, ps)| + left
  {
    DroppedBytes(m, m', p, ps, k);
    FlatSplit(m.node, ps, k);
    if k == |ps| { assert ps[k..] == [] && ps[..k] == ps; }
  }

  lemma {:induction false} FreeingHeader(m: Memory, m': Memory, p: Ptr, ps: seq<Ptr>, size: nat, k: nat, left: nat)
    requires m.Valid() && m.Chain(p, ps) && Totals(m.node, ps) && Freeing(m, m', ps, size, k, left) && k < |ps|
    requires ps[k] in m'.node && left < m'.node[ps[k]].len
    ensures Carries(m'.SetNode(ps[k], WithoutHeader(m'.node[ps[k]], left)), ps[k], ps[k..], Behind(Flat(m.node, ps), size))
  {
    var q, qs := ps[k], ps[k + 1..];
    DroppedBytes(m, m', p, ps, k);
    BehindIs(m.node, ps, size, k, left);
    HeaderCarries(m', q, qs, left, ps[k..], Behind(Flat(m.node, ps), size));
  }

  lemma {:induction false} BehindIs(m: Nodes, ps: seq<Ptr>, size: nat, k: nat, left: nat)
    requires AllIn(m, ps) && k < |ps| && AllIn(m, ps[..k]) && left == size - |Flat(m, ps[..k])| && left < m[ps[k]].len
    ensures ps[k..] == [ps[k]] + ps[k + 1..] && AllIn(m, ps[k..])
    ensures left <= |Flat(m, ps[k..])| && Behind(Flat(m, ps), size) == Flat(m, ps[k..])[left..]
  {
    FlatSplit(m, ps, k);
    assert |Flat(m, ps[k..])| == m[ps[k]].len + |Flat(m, ps[k..][1..])|;
  }

  lemma {:induction false} HeaderCarries(m: Memory, p: Ptr, qs: seq<Ptr>, n: nat, ps: seq<Ptr>, b: seq<byte>)
    requires ps == [p] + qs && m.Chain(p, ps) && Totals(m.node, ps) && p in m.node && n <= m.node[p].len
    requires n <= |Flat(m.node, ps)| && b == Flat(m.node, ps)[n..]
    ensures Carries(m.SetNode(p, WithoutHeader(m.node[p], n)), p, ps, b)
  {
    ListDistinct(m.next, p, [p] + qs);
    assert ([p] + qs)[1..] == qs && forall i :: 0 <= i < |qs| ==> qs[i] == ([p] + qs)[i + 1];
    HeaderOfChain(m.node, p, qs, n);
    TotalsOfHeader(m.node, m.node[p := WithoutHeader(m.node[p], n)], p, qs, n);
  }

  lemma {:induction false} FreeingAt(m: Memory, m': Memory, p: Ptr, ps: seq<Ptr>, size: nat, k: nat, left: int)
    requires m.Valid() && m.Chain(p, ps) && Freeing(m, m', ps, size, k, left) && Head(ps[k..]) != NULL
    ensures k < |ps| && ps[k] in m'.node && ps[k] in m'.next && ps[k] in m.node && m'.node[ps[k]] == m.node[ps[k]]
  {
    assert ps[|ps|..] == [];
    ListNodes(m'.next, ps[k], ps[k..]);
    assert ps[k..][0] == ps[k];
    ListNodes(m.next, p, ps);
    ListDistinct(m.next, p, ps);
    assert Untouched(m, m', ps[k]);
  }

  lemma {:induction false} FreeingFrame(m: Memory, m': Memory, ps: seq<Ptr>, size: nat, k: nat, left: int)
    requires Freeing(m, m', ps, size, k, left) && k < |ps| && ps[k] in m'.node && ps[k] in m.node && m'.node[ps[k]] == m.node[ps[k]]
    ensures var m'' := m'.SetNode(ps[k], WithoutHeader(m'.node[ps[k]], if 0 <= left <= m'.node[ps[k]].len then left else 0));
            Dropped(m, m''.SetNode(ps[k], m.node[ps[k]]), ps, k)
  {
    var m'' := m'.SetNode(ps[k], WithoutHeader(m'.node[ps[k]], if 0 <= left <= m'.node[ps[k]].len then left else 0));
    assert m''.SetNode(ps[k], m.node[ps[k]]).node == m'.node;
  }
}
