/** Memory as pbuf.c sees it: the fields of every allocated pbuf, by address. */
module PbufMemory {
  import opened Bytes
  import opened Lists
  import opened PbufGraph
  import opened PbufBytes

  /** A pbuf that was deallocated is in none of the maps.  `owners` counts the references
      held outside the pbufs; the program itself does not store it. */
  datatype Memory = Memory(next: map<Ptr, Ptr>, ref: map<Ptr, nat>, node: Nodes, ghost owners: map<Ptr, nat>)
  {
    ghost predicate Valid() {
      Counted(next, ref, owners) && node.Keys == next.Keys
    }

    /** `ps` are the pbufs of the chain that starts at `p`. */
    ghost predicate Chain(p: Ptr, ps: seq<Ptr>) {
      IsList(next, p, ps) && AllIn(node, ps)
    }

    /** Deallocation. */
    function Drop(gone: set<Ptr>): Memory {
      Memory(next - gone, ref - gone, node - gone, owners - gone)
    }

    function SetNode(p: Ptr, n: Node): Memory {
      this.(node := node[p := n])
    }

    function SetNext(p: Ptr, q: Ptr): Memory {
      this.(next := next[p := q])
    }
  }

  /** The chain `ps` from `p` carries the bytes `b`, and its `tot_len` fields say so. */
  ghost predicate Carries(m: Memory, p: Ptr, ps: seq<Ptr>, b: seq<byte>) {
    m.Chain(p, ps) && Flat(m.node, ps) == b && Totals(m.node, ps)
  }

  lemma {:induction false} DropNothing(m: Memory)
    ensures m.Drop({}) == m
  {
    assert m.next - {} == m.next && m.ref - {} == m.ref && m.node - {} == m.node && m.owners - {} == m.owners;
  }

  lemma {:induction false} ChainIn(m: Memory, p: Ptr, ps: seq<Ptr>)
    requires m.Valid() && IsList(m.next, p, ps)
    ensures m.Chain(p, ps) && NULL !in ps && p == Head(ps)
    ensures forall x :: x in ps ==> x in m.next && x in m.ref && x in m.owners
    ensures forall i, j :: 0 <= i < j < |ps| ==> ps[i] != ps[j]
  {
    ListNodes(m.next, p, ps);
    ListDistinct(m.next, p, ps);
  }

  /** A walk over a chain stands before link `i`. */
  lemma {:induction false} NextLink(mem: Memory, p: Ptr, ps: seq<Ptr>, i: nat)
    requires mem.Chain(p, ps) && i < |ps|
    ensures ps[i] != NULL && ps[i] in mem.next && ps[i] in mem.node
    ensures mem.next[ps[i]] == Head(ps[i + 1..]) && (Head(ps[i + 1..]) == NULL <==> i + 1 == |ps|)
    ensures Flat(mem.node, ps[..i + 1]) == Flat(mem.node, ps[..i]) + BytesOf(mem.node[ps[i]])
  {
    ListAt(mem.next, p, ps, i);
    ListNodes(mem.next, p, ps);
    FlatStep(mem.node, ps, i);
  }

  // ---- what the operations do to memory -------------------------------------------

  /** pbuf_free: the pbufs at the front of the chain without another reference go; the
      first one with another reference loses one. */
  ghost function AfterFree(m: Memory, p: Ptr, ps: seq<Ptr>): Memory
    requires p in m.owners && 0 < m.owners[p]
  {
    var gone := NodeSet(ps[..Unshared(m.ref, ps)]);
    Memory(m.next - gone, RefAfterFree(m.ref, ps), m.node - gone, m.owners[p := m.owners[p] - 1] - gone)
  }

  lemma {:induction false} FreedIsInChain(m: Memory, p: Ptr, ps: seq<Ptr>, x: Ptr)
    requires p in m.owners && 0 < m.owners[p] && x in m.next && x !in AfterFree(m, p, ps).next
    ensures x in ps
  {
  }

  lemma {:induction false} FreeValid(m: Memory, p: Ptr, ps: seq<Ptr>)
    requires m.Valid() && p in m.next && 0 < m.owners[p] && IsList(m.next, p, ps)
    ensures AfterFree(m, p, ps).Valid()
  {
    FreeByOwner(m.next, m.ref, m.owners, p, ps);
  }

  /** pbuf_free deallocates exactly the pbufs to which no reference is left: those without an
      owner, once the reference given up is taken away, whose predecessors are all gone. */
  lemma {:induction false} FreedExactlyUnreferenced(m: Memory, p: Ptr, ps: seq<Ptr>, x: Ptr)
    requires m.Valid() && p in m.next && 0 < m.owners[p] && IsList(m.next, p, ps) && x in m.next
    ensures var m' := AfterFree(m, p, ps);
            x !in m'.next <==> m.owners[x] == (if x == p then 1 else 0) && forall q :: q in Preds(m.next, x) ==> q !in m'.next
  {
    var m' := AfterFree(m, p, ps);
    FreeByOwner(m.next, m.ref, m.owners, p, ps);
    if x in m'.next {
      assert At(m'.next, m'.ref, m'.owners, NULL, x);
      assert m'.owners[x] == m.owners[x] - (if x == p then 1 else 0);
      assert Preds(m'.next, x) <= Preds(m.next, x);
    } else {
      var i :| 0 <= i < Unshared(m.ref, ps) && ps[i] == x;
      GoneWasUnreferenced(m.next, m.ref, m.owners, p, ps, i);
      ListNodes(m.next, p, ps);
      ListDistinct(m.next, p, ps);
      if 0 < i { assert ps[i - 1] in ps[..Unshared(m.ref, ps)]; }
    }
  }

  /** One more reference to `p` is held outside. */
  function Owned(m: Memory, p: Ptr): Memory
    requires p in m.owners
  {
    m.(owners := m.owners[p := m.owners[p] + 1])
  }

  /** One reference less to `p` is held outside. */
  function Disowned(m: Memory, p: Ptr): Memory
    requires p in m.owners && 0 < m.owners[p]
  {
    m.(owners := m.owners[p := m.owners[p] - 1])
  }

  /** pbuf_ref */
  function AfterRef(m: Memory, p: Ptr): Memory
    requires p in m.ref && p in m.owners
  {
    m.(ref := m.ref[p := m.ref[p] + 1], owners := m.owners[p := m.owners[p] + 1])
  }

  // ---- concatenation ---------------------------------------------------------------

  function Longer(n: Node, k: int): Node {
    n.(totLen := Low16(n.totLen + k))
  }

  lemma {:induction false} LongerBack(n: Node, k: int)
    ensures Longer(Longer(n, -k), k) == n
  {
    Low16Plus(n.totLen - k, k);
  }

  /** Adds `n` to the `tot_len` of every pbuf in `ps`. */
  function AddTotals(m: Nodes, ps: seq<Ptr>, n: int): (m': Nodes)
    ensures m'.Keys == m.Keys
  {
    map p | p in m :: if p in ps then Longer(m[p], n) else m[p]
  }

  lemma {:induction false} AddTotalsNothing(m: Nodes, ps: seq<Ptr>, n: int)
    requires ps == []
    ensures AddTotals(m, ps, n) == m
  {
  }

  lemma {:induction false} AddTotalsStep(m: Nodes, ps: seq<Ptr>, i: nat, n: int)
    requires i < |ps| && ps[i] in m && ps[i] !in ps[..i]
    ensures AddTotals(m, ps[..i + 1], n) == AddTotals(m, ps[..i], n)[ps[i] := Longer(m[ps[i]], n)]
  {
    assert ps[..i + 1] == ps[..i] + [ps[i]];
  }

  /** A loop over the chain `ps` has added `d` to the `tot_len` of the first `i` links. */
  ghost function Shift(m: Memory, ps: seq<Ptr>, d: int, i: nat): Memory
    requires i <= |ps|
  {
    m.(node := AddTotals(m.node, ps[..i], d))
  }

  lemma {:induction false} ShiftStart(m: Memory, ps: seq<Ptr>, d: int)
    ensures Shift(m, ps, d, 0) == m
  {
    AddTotalsNothing(m.node, ps[..0], d);
  }

  lemma {:induction false} ShiftRound(m: Memory, p: Ptr, ps: seq<Ptr>, d: int, i: nat)
    requires IsList(m.next, p, ps) && AllIn(m.node, ps) && i < |ps|
    ensures var cur, q := Shift(m, ps, d, i), ps[i];
            && q in cur.node && cur.node[q] == m.node[q]
            && q in cur.next && q != NULL && cur.next[q] == (if i + 1 < |ps| then ps[i + 1] else NULL)
            && cur.SetNode(q, Longer(cur.node[q], d)) == Shift(m, ps, d, i + 1)
  {
    ListAt(m.next, p, ps, i);
    ListNodes(m.next, p, ps);
    ListDistinct(m.next, p, ps);
    AddTotalsStep(m.node, ps, i, d);
  }

  lemma {:induction false} ShiftOutside(m: Memory, ps: seq<Ptr>, d: int, i: nat, x: Ptr)
    requires i <= |ps| && x in m.node && x !in ps
    ensures x in Shift(m, ps, d, i).node && Shift(m, ps, d, i).node[x] == m.node[x]
  {
  }

  lemma {:induction false} CatLoopEnd(m: Memory, hs: seq<Ptr>, t: Ptr)
    requires hs != [] && t in m.node && t in m.owners && 0 < m.owners[t]
    ensures var s := Shift(m, hs, m.node[t].totLen, |hs|).SetNext(hs[|hs| - 1], t);
            Disowned(s, t) == AfterCat(m, hs, t)
  {
    assert hs[..|hs|] == hs;
  }

  /** pbuf_cat: the caller's reference to `t` becomes the link of the last pbuf of `hs`. */
  ghost function AfterCat(m: Memory, hs: seq<Ptr>, t: Ptr): Memory
    requires hs != [] && t in m.node && t in m.owners && 0 < m.owners[t]
  {
    Memory(m.next[hs[|hs| - 1] := t], m.ref, AddTotals(m.node, hs, m.node[t].totLen), m.owners[t := m.owners[t] - 1])
  }

  lemma {:induction false} CatValid(m: Memory, h: Ptr, hs: seq<Ptr>, t: Ptr, ts: seq<Ptr>)
    requires m.Valid() && IsList(m.next, h, hs) && IsList(m.next, t, ts) && hs != [] && ts != []
    requires hs[|hs| - 1] !in ts && t in m.owners && 0 < m.owners[t]
    ensures AfterCat(m, hs, t).Valid()
  {
    ListAt(m.next, h, hs, |hs| - 1);
    LinkKeepsCounts(m.next, m.ref, m.owners, hs[|hs| - 1], t, ts);
  }

  /** pbuf_chain leaves the caller's reference to `t` in place. */
  lemma {:induction false} ChainKeepsOwners(m: Memory, hs: seq<Ptr>, t: Ptr)
    requires hs != [] && t in m.node && t in m.ref && t in m.owners && 0 < m.owners[t]
    ensures AfterRef(AfterCat(m, hs, t), t).owners == m.owners
    ensures AfterRef(AfterCat(m, hs, t), t).ref == m.ref[t := m.ref[t] + 1]
  {
  }

  /** Chains that end in NULL and do not share their last pbuf have nothing in common. */
  lemma {:induction false} ChainsDisjoint(m: Memory, h: Ptr, hs: seq<Ptr>, t: Ptr, ts: seq<Ptr>, x: Ptr)
    requires IsList(m.next, h, hs) && IsList(m.next, t, ts) && hs != [] && hs[|hs| - 1] !in ts
    ensures x !in hs || x !in ts
  {
    if x in hs && x in ts {
      var i :| 0 <= i < |hs| && hs[i] == x;
      var j :| 0 <= j < |ts| && ts[j] == x;
      ListsMeet(m.next, h, hs, t, ts, i, j);
      LastOfSuffix(hs, ts, i, j);
    }
  }

  lemma {:induction false} LastOfSuffix(hs: seq<Ptr>, ts: seq<Ptr>, i: nat, j: nat)
    requires i < |hs| && j < |ts| && hs[i..] == ts[j..]
    ensures hs[|hs| - 1] in ts
  {
    assert hs[|hs| - 1] == hs[i..][|hs| - 1 - i] == ts[j..][|hs| - 1 - i] == ts[j + (|hs| - 1 - i)];
  }

  /** The bytes of the concatenation. */
  lemma {:induction false} CatBytes(m: Memory, h: Ptr, hs: seq<Ptr>, t: Ptr, ts: seq<Ptr>)
    requires m.Chain(h, hs) && m.Chain(t, ts) && hs != [] && ts != []
    requires hs[|hs| - 1] !in ts && t in m.owners && 0 < m.owners[t]
    ensures var m' := AfterCat(m, hs, t);
            m'.Chain(h, hs + ts) && Flat(m'.node, hs + ts) == Flat(m.node, hs) + Flat(m.node, ts)
  {
    var m' := AfterCat(m, hs, t);
    ListAppend(m.next, h, hs, t, ts);
    FlatFrame(m.node, m'.node, ts);
    FlatFrame(m.node, m'.node, hs);
    FlatConcat(m'.node, hs, ts);
  }

  /** Its `tot_len` fields are right if those of the parts were. */
  lemma {:induction false} CatTotals(m: Memory, h: Ptr, hs: seq<Ptr>, t: Ptr, ts: seq<Ptr>)
    requires m.Chain(h, hs) && m.Chain(t, ts) && hs != [] && ts != []
    requires hs[|hs| - 1] !in ts && t in m.owners && 0 < m.owners[t]
    requires Totals(m.node, hs) && Totals(m.node, ts)
    ensures var m' := AfterCat(m, hs, t);
            AllIn(m'.node, hs + ts) && Totals(m'.node, hs + ts)
  {
    var m' := AfterCat(m, hs, t);
    forall x | x in ts ensures x !in hs { ChainsDisjoint(m, h, hs, t, ts, x); }
    assert m.node[t].totLen == Low16(|Flat(m.node, ts)|) by {
      ListNodes(m.next, t, ts);
      assert TotalAt(m.node, ts, 0) && ts[0..] == ts;
    }
    AddTotalsShifts(m.node, hs, m.node[t].totLen, |Flat(m.node, ts)|);
    TotalsConcat(m.node, m'.node, hs, ts);
  }

  lemma {:induction false} AddTotalsShifts(m: Nodes, ps: seq<Ptr>, n: int, k: int)
    requires AllIn(m, ps) && n == Low16(k)
    ensures Shifted(m, AddTotals(m, ps, n), ps, k)
  {
    var m' := AddTotals(m, ps, n);
    forall p | p in ps ensures m'[p].totLen == Low16(m[p].totLen + k) {
      Low16Plus(k, m[p].totLen);
    }
  }

  // ---- cutting a chain -----------------------------------------------------------------

  /** Clearing the link behind `p`: the caller now holds the reference to the rest. */
  ghost function AfterCut(m: Memory, p: Ptr): Memory
    requires p in m.next && (m.next[p] != NULL ==> m.next[p] in m.owners)
  {
    var q := m.next[p];
    if q == NULL then m else Owned(m.SetNext(p, NULL), q)
  }

  lemma {:induction false} CutValid(m: Memory, p: Ptr)
    requires m.Valid() && p in m.next
    ensures m.next[p] != NULL ==> m.next[p] in m.owners
    ensures AfterCut(m, p).Valid()
  {
    assert At(m.next, m.ref, m.owners, NULL, p);
    if m.next[p] != NULL {
      CutKeepsCounts(m.next, m.ref, m.owners, p);
    }
  }

  /** Cutting behind `p` leaves the list behind it alone. */
  lemma {:induction false} RestAfterCut(m: Memory, p: Ptr, qs: seq<Ptr>)
    requires p in m.next && IsList(m.next, m.next[p], qs)
    ensures IsList(m.next[p := NULL], m.next[p], qs)
  {
    ListNodes(m.next, m.next[p], qs);
    if p in qs {
      var i :| 0 <= i < |qs| && qs[i] == p;
      var ps := [p] + qs;
      assert ps[1..] == qs;
      assert IsList(m.next, p, ps);
      ListDistinct(m.next, p, ps);
    } else {
      ListFrame(m.next, m.next[p := NULL], m.next[p], qs);
    }
  }

  lemma {:induction false} CutChain(m: Memory, p: Ptr, ps: seq<Ptr>, i: nat)
    requires IsList(m.next, p, ps) && i < |ps| && ps[i] in m.next && (m.next[ps[i]] != NULL ==> m.next[ps[i]] in m.owners)
    ensures IsList(AfterCut(m, ps[i]).next, p, ps[..i + 1])
    ensures IsList(AfterCut(m, ps[i]).next, m.next[ps[i]], ps[i + 1..]) && m.next[ps[i]] == Head(ps[i + 1..])
  {
    ListAt(m.next, p, ps, i);
    ListNodes(m.next, p, ps);
    if m.next[ps[i]] != NULL {
      ListCut(m.next, p, ps, i + 1);
    } else {
      assert ps[..i + 1] == ps && ps[i + 1..] == [];
    }
  }

  // ---- rounds of loops -------------------------------------------------------------------

  /** The loop of pbuf_free looks at `ps[i]` after `ps[..i]` were deallocated. */
  ghost function FreeLoopState(m: Memory, p: Ptr, ps: seq<Ptr>, i: nat): Memory
    requires p in m.owners && 0 < m.owners[p] && i <= |ps|
  {
    Disowned(m, p).Drop(NodeSet(ps[..i]))
  }

  ghost predicate FreeLooping(m: Memory, p: Ptr, ps: seq<Ptr>, i: nat) {
    m.Valid() && p in m.next && 0 < m.owners[p] && IsList(m.next, p, ps) && i < |ps| && i <= Unshared(m.ref, ps)
  }

  lemma {:induction false} FreeLoopRound(m: Memory, p: Ptr, ps: seq<Ptr>, i: nat)
    requires FreeLooping(m, p, ps, i)
    ensures var cur := FreeLoopState(m, p, ps, i);
            && ps[i] in cur.next && ps[i] in cur.ref && 0 < cur.ref[ps[i]]
            && cur.next[ps[i]] == Head(ps[i + 1..]) && (Head(ps[i + 1..]) == NULL <==> i + 1 == |ps|)
            && (i < Unshared(m.ref, ps) <==> cur.ref[ps[i]] == 1)
  {
    assert At(m.next, m.ref, m.owners, NULL, ps[i]) by { ListNodes(m.next, p, ps); }
    FreeRound(m.next, m.ref, m.node, p, ps, i);
  }

  lemma {:induction false} FreeLoopGone(m: Memory, p: Ptr, ps: seq<Ptr>, i: nat)
    requires FreeLooping(m, p, ps, i) && i < Unshared(m.ref, ps)
    ensures var cur := FreeLoopState(m, p, ps, i);
            cur.(ref := cur.ref[ps[i] := 0]).Drop({ps[i]}) == FreeLoopState(m, p, ps, i + 1)
  {
    FreeRound(m.next, m.ref, m.node, p, ps, i);
    FreeRound(m.next, m.ref, m.owners[p := m.owners[p] - 1], p, ps, i);
  }

  lemma {:induction false} FreeLoopStop(m: Memory, p: Ptr, ps: seq<Ptr>, i: nat)
    requires FreeLooping(m, p, ps, i) && i == Unshared(m.ref, ps)
    ensures var cur := FreeLoopState(m, p, ps, i);
            ps[i] in cur.ref && 0 < cur.ref[ps[i]] && cur.(ref := cur.ref[ps[i] := cur.ref[ps[i]] - 1]) == AfterFree(m, p, ps)
  {
    FreeLoopRound(m, p, ps, i);
    FreeRound(m.next, m.ref, m.node, p, ps, i);
  }

  lemma {:induction false} FreeLoopEnd(m: Memory, p: Ptr, ps: seq<Ptr>)
    requires p in m.owners && 0 < m.owners[p] && Unshared(m.ref, ps) == |ps|
    ensures FreeLoopState(m, p, ps, |ps|) == AfterFree(m, p, ps)
  {
  }

  // ---- pbuf_dechain, pbuf_realloc, pbuf_free_header, pbuf_split_64k --------------------------

  /** Only these assignments to `node` matter to the graph: none. */
  lemma {:induction false} NodesDoNotMatter(m: Memory, node': Nodes)
    requires m.Valid() && node'.Keys == m.node.Keys
    ensures m.(node := node').Valid()
  {
  }

  /** A chain whose first pbuf has a second reference stays as it is under pbuf_free. */
  lemma {:induction false} FreeOfShared(m: Memory, p: Ptr, ps: seq<Ptr>)
    requires m.Valid() && p in m.next && 0 < m.owners[p] && IsList(m.next, p, ps) && m.ref[p] != 1
    ensures 0 < m.ref[p]
    ensures AfterFree(m, p, ps) == m.(ref := m.ref[p := m.ref[p] - 1], owners := m.owners[p := m.owners[p] - 1])
  {
    assert At(m.next, m.ref, m.owners, NULL, p);
    assert NodeSet(ps[..Unshared(m.ref, ps)]) == {};
    DropNothing(m.(owners := m.owners[p := m.owners[p] - 1]));
  }

  /** Deallocating the rest of a chain leaves a list that does not meet it alone. */
  lemma {:induction false} FreeKeepsList(m: Memory, p: Ptr, ps: seq<Ptr>, q: Ptr, qs: seq<Ptr>)
    requires p in m.owners && 0 < m.owners[p] && IsList(m.next, q, qs) && AllIn(m.node, qs)
    requires forall x :: x in qs ==> x !in ps
    ensures var m' := AfterFree(m, p, ps);
            m'.Chain(q, qs) && forall x :: x in qs ==> m'.node[x] == m.node[x]
  {
    var m' := AfterFree(m, p, ps);
    ListNodes(m.next, q, qs);
    forall x | x in qs ensures x !in NodeSet(ps[..Unshared(m.ref, ps)]) {}
    ListFrame(m.next, m'.next, q, qs);
  }
}
