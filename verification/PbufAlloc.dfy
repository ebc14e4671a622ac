/** pbuf_alloc of lwip/core/pbuf.c for PBUF_POOL: a chain is built from pool elements.

    While it is built its `tot_len` fields already count the bytes still to come; the lemmas follow
    the loop of the function round by round. */
module PbufAlloc {
  import opened Bytes
  import opened Lists
  import opened PbufGraph
  import opened PbufBytes
  import opened PbufMemory

  /** A pbuf fresh from the pool, held by whoever asked for it. */
  ghost function AfterAlloc(m: Memory, q: Ptr, n: Node): Memory {
    Memory(m.next[q := NULL], m.ref[q := 1], m.node[q := n], m.owners[q := 1])
  }

  lemma {:induction false} AllocValid(m: Memory, q: Ptr, n: Node)
    requires m.Valid() && q != NULL && q !in m.next
    ensures AfterAlloc(m, q, n).Valid()
  {
    var m' := AfterAlloc(m, q, n);
    assert IsList(m'.next, NULL, []);
    forall x | x in m'.next ensures At(m'.next, m'.ref, m'.owners, NULL, x) {
      if x == q {
        NobodyPoints(m, q);
        assert Preds(m'.next, q) == {};
        assert IsList(m'.next, q, [q]) by { assert [q][1..] == []; }
      } else {
        assert At(m.next, m.ref, m.owners, NULL, x);
        assert Preds(m'.next, x) == Preds(m.next, x);
        StillEndsWith(m.next, m'.next, x, q);
      }
    }
  }

  lemma {:induction false} NobodyPoints(m: Memory, q: Ptr)
    requires m.Valid() && q != NULL && q !in m.next
    ensures forall x :: x in m.next ==> m.next[x] != q
  {
    forall x | x in m.next ensures m.next[x] != q { assert At(m.next, m.ref, m.owners, NULL, x); }
  }

  lemma {:induction false} StillEndsWith(next: map<Ptr, Ptr>, next': map<Ptr, Ptr>, x: Ptr, q: Ptr)
    requires Ends(next, x) && next' == next[q := NULL] && q !in next
    ensures Ends(next', x)
  {
    var ps :| IsList(next, x, ps);
    ListNodes(next, x, ps);
    ListFrame(next, next', x, ps);
  }

  /** The new pbuf is linked behind `last`. */
  ghost function AfterLink(m: Memory, last: Ptr, q: Ptr, n: Node): Memory {
    Memory(m.next[q := NULL][last := q], m.ref[q := 1], m.node[q := n], m.owners[q := 0])
  }

  /** `ps` are the pbufs allocated so far; together with `m0` they are all there is. */
  ghost predicate Building(m0: Memory, m: Memory, p: Ptr, ps: seq<Ptr>, length: nat, rem: nat) {
    && m.Valid() && m.Chain(p, ps) && ps != [] && p in m.owners && m.owners[p] == 1
    && (forall x :: x in ps ==> x in m.ref && m.ref[x] == 1)
    && m.Drop(NodeSet(ps)) == m0
    && |Flat(m.node, ps)| + rem == length
    && (forall k :: 0 <= k < |ps| ==> TotalSoFar(m.node, ps, k, rem))
  }

  /** The payload starts behind so many bytes, which headers may be put into. */
  ghost predicate Offset(m: Memory, p: Ptr, room: nat) {
    p in m.node && m.node[p].payload == room
  }

  /** `tot_len` already counts the bytes still to come. */
  ghost predicate TotalSoFar(m: Nodes, ps: seq<Ptr>, k: nat, rem: nat)
    requires AllIn(m, ps) && k < |ps|
  {
    m[ps[k]].totLen == |Flat(m, ps[k..])| + rem
  }

  lemma {:induction false} FirstBuilt(m0: Memory, q: Ptr, n: Node, length: nat, rem: nat)
    requires m0.Valid() && q != NULL && q !in m0.next && n.len + rem == length == n.totLen
    ensures Building(m0, AfterAlloc(m0, q, n), q, [q], length, rem)
  {
    var m := AfterAlloc(m0, q, n);
    AllocValid(m0, q, n);
    assert [q][1..] == [] && [q][0..] == [q];
    assert Flat(m.node, [q]) == BytesOf(n);
    assert NodeSet([q]) == {q};
    assert m.next - {q} == m0.next && m.ref - {q} == m0.ref && m.node - {q} == m0.node && m.owners - {q} == m0.owners;
  }

  /** No name of a pbuf in use is in the pool. */
  lemma {:induction false} LinkValid(m: Memory, p: Ptr, ps: seq<Ptr>, last: Ptr, q: Ptr, n: Node)
    requires m.Valid() && IsList(m.next, p, ps) && ps != [] && last == ps[|ps| - 1] && q != NULL && q !in m.next
    ensures AfterLink(m, last, q, n).Valid() && IsList(AfterLink(m, last, q, n).next, p, ps + [q])
  {
    var a, m' := AfterAlloc(m, q, n), AfterLink(m, last, q, n);
    AllocValid(m, q, n);
    ListNodes(m.next, p, ps);
    ListAt(m.next, p, ps, |ps| - 1);
    ListFrame(m.next, a.next, p, ps);
    assert [q][1..] == [] && IsList(a.next, q, [q]);
    LinkKeepsCounts(a.next, a.ref, a.owners, last, q, [q]);
    ListAppend(a.next, p, ps, q, [q]);
    assert a.owners[q := a.owners[q] - 1] == m'.owners;
  }

  lemma {:induction false} LinkDrops(m0: Memory, m: Memory, ps: seq<Ptr>, last: Ptr, q: Ptr, n: Node)
    requires m.Drop(NodeSet(ps)) == m0 && last in ps && q !in m.next && q !in m.ref && q !in m.node && q !in m.owners
    ensures AfterLink(m, last, q, n).Drop(NodeSet(ps + [q])) == m0
  {
    var m', s, s' := AfterLink(m, last, q, n), NodeSet(ps), NodeSet(ps + [q]);
    assert s' == s + {q} && last in s;
    assert m'.next - s' == m.next - s && m'.ref - s' == m.ref - s && m'.node - s' == m.node - s && m'.owners - s' == m.owners - s;
  }

  lemma {:induction false} LinkTotals(m: Nodes, ps: seq<Ptr>, q: Ptr, n: Node, rem: nat, rem': nat)
    requires AllIn(m, ps) && q !in ps && n.totLen == rem == n.len + rem' && forall k :: 0 <= k < |ps| ==> TotalSoFar(m, ps, k, rem)
    ensures var m', qs := m[q := n], ps + [q];
            AllIn(m', qs) && |Flat(m', qs)| == |Flat(m, ps)| + n.len && forall k :: 0 <= k < |qs| ==> TotalSoFar(m', qs, k, rem')
  {
    var m', qs := m[q := n], ps + [q];
    assert [q][1..] == [] && Flat(m', [q]) == BytesOf(n);
    FlatConcat(m', ps, [q]);
    FlatFrame(m, m', ps);
    forall k | 0 <= k < |qs| ensures TotalSoFar(m', qs, k, rem') {
      if k < |ps| {
        assert TotalSoFar(m, ps, k, rem) && qs[k..] == ps[k..] + [q];
        FlatConcat(m', ps[k..], [q]);
        FlatFrame(m, m', ps[k..]);
      } else {
        assert qs[k..] == [q];
      }
    }
  }

  lemma {:induction false} NextBuilt(m0: Memory, m: Memory, p: Ptr, ps: seq<Ptr>, q: Ptr, n: Node, length: nat, rem: nat, rem': nat)
    requires Building(m0, m, p, ps, length, rem) && q != NULL && q !in m.next && n.totLen == rem == n.len + rem'
    ensures Building(m0, AfterLink(m, ps[|ps| - 1], q, n), p, ps + [q], length, rem')
  {
    ListNodes(m.next, p, ps);
    LinkValid(m, p, ps, ps[|ps| - 1], q, n);
    LinkDrops(m0, m, ps, ps[|ps| - 1], q, n);
    LinkTotals(m.node, ps, q, n, rem, rem');
  }

  lemma {:induction false} AllUnshared(ref: map<Ptr, nat>, ps: seq<Ptr>)
    requires forall x :: x in ps ==> x in ref && ref[x] == 1
    ensures Unshared(ref, ps) == |ps|
    decreases |ps|
  {
    if ps != [] { AllUnshared(ref, ps[1..]); }
  }

  /** When the pool is empty, giving up what was allocated restores memory as it was. */
  lemma {:induction false} FreedAll(m0: Memory, m: Memory, p: Ptr, ps: seq<Ptr>, length: nat, rem: nat)
    requires Building(m0, m, p, ps, length, rem)
    ensures AfterFree(m, p, ps) == m0 && p in m.next
  {
    AllUnshared(m.ref, ps);
    ListNodes(m.next, p, ps);
    assert ps[..|ps|] == ps && p in NodeSet(ps);
    assert m.owners[p := m.owners[p] - 1] - NodeSet(ps) == m.owners - NodeSet(ps);
  }

  /** A finished chain has the length asked for, exactly counted. */
  lemma {:induction false} Built(m0: Memory, m: Memory, p: Ptr, ps: seq<Ptr>, length: nat)
    requires Building(m0, m, p, ps, length, 0) && length < 0x1_0000
    ensures |Flat(m.node, ps)| == length && Totals(m.node, ps)
  {
    forall k | 0 <= k < |ps| ensures TotalAt(m.node, ps, k) {
      assert TotalSoFar(m.node, ps, k, 0);
      FlatSplit(m.node, ps, k);
    }
  }

  lemma {:induction false} LinkIs(m: Memory, last: Ptr, q: Ptr, n: Node)
    ensures var a := AfterAlloc(m, q, n).SetNext(last, q);
            q in a.owners && 0 < a.owners[q] && Disowned(a, q) == AfterLink(m, last, q, n)
  {
    assert m.owners[q := 1][q := 0] == m.owners[q := 0];
  }

  /** How many bytes `n` elements of the pool hold, the first of them behind `room` bytes. */
  function Capacity(n: nat, room: nat, bufSize: nat): nat
    requires room < bufSize
  {
    if n == 0 then 0 else if n == 1 then bufSize - room else Capacity(n - 1, room, bufSize) + bufSize
  }

  lemma {:induction false} CapacityGrows(i: nat, n: nat, room: nat, bufSize: nat)
    requires room < bufSize && i <= n
    ensures Capacity(i, room, bufSize) <= Capacity(n, room, bufSize)
    decreases n
  {
    if i < n { CapacityGrows(i, n - 1, room, bufSize); }
  }

  lemma {:induction false} PrefixNext(pool: seq<Ptr>, i: nat)
    requires i < |pool|
    ensures pool[..i] + [pool[i]] == pool[..i + 1]
  {
  }
}
