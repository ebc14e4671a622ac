/** lwip/core/pbuf.c: life cycle, chaining, resizing and writing of packet buffers.

    The methods change memory as the C functions do, and their contracts name the memory that
    results.  What that memory means for reference counts and for the flat bytes of a chain is
    proved about it in `PbufMemory`, `PbufGraph`, `PbufAlloc`, `PbufResize`, `PbufHeader` and
    `PbufWrite`. */
module Pbuf {
  import opened Bytes
  import opened Errors
  import opened Lists
  import opened PbufGraph
  import opened PbufBytes
  import opened PbufMemory
  import opened PbufAlloc
  import opened PbufDechain
  import opened PbufHeader
  import opened PbufRead
  import opened PbufResize
  import opened PbufWrite

  /** All pbufs in existence; the operations assign fields in `mem`. */
  class Pbufs {
    var mem: Memory

    /** pbuf_alloc for PBUF_POOL.  `pool` are the elements memp_malloc will give, `room` the space
        kept free for headers in the first one, `junk` what the memory of an element holds. */
    method AllocPool(length: u16, room: nat, bufSize: u16, pool: seq<Ptr>, junk: seq<byte>) returns (p: Ptr, ghost ps: seq<Ptr>)
      requires mem.Valid() && room < bufSize && |junk| == bufSize
      requires NULL !in pool && Distinct(pool) && forall x :: x in pool ==> x !in mem.next
      modifies this
      ensures mem.Valid() && (p == NULL ==> mem == old(mem))
      ensures p != NULL ==> mem.Chain(p, ps) && |Flat(mem.node, ps)| == length && Totals(mem.node, ps)
      ensures p != NULL ==> ps <= pool && mem.Drop(NodeSet(ps)) == old(mem) && p in mem.owners && mem.owners[p] == 1 && p in mem.ref && mem.ref[p] == 1
      ensures p == NULL ==> ps == pool
      ensures p != NULL ==> Offset(mem, p, room)
      ensures p == NULL <==> pool == [] || Capacity(|pool|, room, bufSize) < length
    {
      ghost var m0 := mem;
      ps := [];
      p := NULL;
      if pool == [] { return; }
      p := pool[0];
      var i: nat, last := 1, p;
      var rem := AllocFirst(p, length, room, bufSize, junk);
      ps := [p];
      assert pool[..1] == [p];
      while rem > 0
        invariant 1 <= i <= |pool| && ps == pool[..i] && last == ps[|ps| - 1]
        invariant Building(m0, mem, p, ps, length, rem) && Offset(mem, p, room)
        invariant forall j :: i <= j < |pool| ==> pool[j] !in mem.next
        invariant if rem > 0 then length - rem == Capacity(i, room, bufSize) else length <= Capacity(i, room, bufSize)
        decreases rem
      {
        if i == |pool| {
          FreedAll(m0, mem, p, ps, length, rem);
          var _ := Free(p, ps);
          return NULL, pool;
        }
        PrefixNext(pool, i);
        rem, last, ps := AllocNext(p, last, pool[i], rem, bufSize, junk, m0, ps, length);
        i := i + 1;
      }
      Built(m0, mem, p, ps, length);
      CapacityGrows(i, |pool|, room, bufSize);
    }

    /** The first element has room for headers. */
    method AllocFirst(q: Ptr, length: u16, room: nat, bufSize: u16, junk: seq<byte>) returns (rem: u16)
      requires mem.Valid() && room < bufSize && |junk| == bufSize && q != NULL && q !in mem.next
      modifies this
      ensures Building(old(mem), mem, q, [q], length, rem) && mem.next == old(mem).next[q := NULL]
      ensures rem == if length < bufSize - room then 0 else length - (bufSize - room)
      ensures Offset(mem, q, room)
    {
      var qlen: u16 := if length < bufSize - room then length else bufSize - room;
      rem := length - qlen;
      FirstBuilt(mem, q, Node(qlen, length, room, junk, Pool, false), length, rem);
      AddNode(q, Node(qlen, length, room, junk, Pool, false));
    }

    /** memp_malloc and pbuf_init_alloced_pbuf */
    method AddNode(q: Ptr, n: Node)
      requires mem.Valid() && q != NULL && q !in mem.next
      modifies this
      ensures mem == AfterAlloc(old(mem), q, n) && mem.Valid()
    {
      AllocValid(mem, q, n);
      mem := Memory(mem.next[q := NULL], mem.ref[q := 1], mem.node[q := n], mem.owners[q := 1]);
    }

    /** One more element is linked behind `last`. */
    method AllocNext(p: Ptr, last: Ptr, q: Ptr, rem: u16, bufSize: u16, junk: seq<byte>, ghost m0: Memory, ghost ps: seq<Ptr>, ghost length: nat)
      returns (rem': u16, last': Ptr, ghost ps': seq<Ptr>)
      requires Building(m0, mem, p, ps, length, rem) && last == ps[|ps| - 1] && q != NULL && q !in mem.next
      requires 0 < rem && 0 < bufSize && |junk| == bufSize
      modifies this
      ensures ps' == ps + [q] && last' == q && Building(m0, mem, p, ps', length, rem')
      ensures rem' == if rem < bufSize then 0 else rem - bufSize
      ensures forall x :: x in mem.next ==> x == q || x in old(mem).next
      ensures forall room :: Offset(old(mem), p, room) ==> Offset(mem, p, room)
    {
      var qlen: u16 := if rem < bufSize then rem else bufSize;
      rem', last', ps' := rem - qlen, q, ps + [q];
      NextBuilt(m0, mem, p, ps, q, Node(qlen, rem, 0, junk, Pool, false), length, rem, rem');
      LinkIs(mem, last, q, Node(qlen, rem, 0, junk, Pool, false));
      AddNode(q, Node(qlen, rem, 0, junk, Pool, false));
      mem := mem.SetNext(last, q);
      mem := Disowned(mem, q);
    }

    /** pbuf_free: gives up one reference; the pbufs at the front of the chain that had no
        other one are deallocated.  The count of these is an 8-bit number. */
    method Free(p: Ptr, ghost ps: seq<Ptr>) returns (count: byte)
      requires mem.Valid() && p in mem.next && 0 < mem.owners[p] && IsList(mem.next, p, ps)
      modifies this
      ensures mem.Valid() && mem == AfterFree(old(mem), p, ps)
      ensures count == Low8(Unshared(old(mem).ref, ps))
    {
      ghost var m := mem;
      FreeValid(m, p, ps);
      mem := Disowned(mem, p);
      assert mem == FreeLoopState(m, p, ps, 0) by { assert NodeSet(ps[..0]) == {}; DropNothing(mem); }
      var cur := p;
      count := 0;
      ghost var i := 0;
      while cur != NULL
        invariant 0 <= i <= Unshared(m.ref, ps) && count == Low8(i)
        invariant if cur != NULL then i < |ps| && cur == ps[i] && mem == FreeLoopState(m, p, ps, i)
                  else i == Unshared(m.ref, ps) && mem == AfterFree(m, p, ps)
        decreases |ps| - i, if cur == NULL then 0 else 1
      {
        FreeLoopRound(m, p, ps, i);
        if i == Unshared(m.ref, ps) { FreeLoopStop(m, p, ps, i); } else { FreeLoopGone(m, p, ps, i); }
        mem := mem.(ref := mem.ref[cur := mem.ref[cur] - 1]);
        if mem.ref[cur] == 0 {
          var q := mem.next[cur];
          mem := mem.Drop({cur});
          Low8Plus(i, 1);
          count := Low8(count + 1);
          cur := q;
          i := i + 1;
          if i == |ps| { FreeLoopEnd(m, p, ps); }
        } else {
          cur := NULL;
        }
      }
    }

    /** pbuf_ref.  `ref` has 8 bits; the assertion behind the increment demands that it does
        not wrap around. */
    method Ref(p: Ptr)
      requires mem.Valid() && (p != NULL ==> p in mem.next && mem.ref[p] + 1 < 0x100)
      modifies this
      ensures mem.Valid()
      ensures mem == if p == NULL then old(mem) else AfterRef(old(mem), p)
    {
      if p != NULL {
        RefKeepsCounts(mem.next, mem.ref, mem.owners, p);
        mem := AfterRef(mem, p);
      }
    }

    /** pbuf_cat */
    method Cat(h: Ptr, t: Ptr, ghost hs: seq<Ptr>, ghost ts: seq<Ptr>)
      requires mem.Valid() && IsList(mem.next, h, hs) && IsList(mem.next, t, ts)
      requires h != NULL && t != NULL ==> hs[|hs| - 1] !in ts && t in mem.owners && 0 < mem.owners[t]
      requires h != NULL && t != NULL ==> var last := hs[|hs| - 1]; last in mem.node && mem.node[last].totLen == mem.node[last].len
      modifies this
      ensures mem.Valid()
      ensures mem == if h == NULL || t == NULL then old(mem) else AfterCat(old(mem), hs, t)
    {
      if h == NULL || t == NULL { return; }
      ghost var m := mem;
      ChainIn(m, h, hs);
      ChainIn(m, t, ts);
      ChainsDisjoint(m, h, hs, t, ts, t);
      CatValid(m, h, hs, t, ts);
      var p := h;
      ghost var i := 0;
      ghost var d := m.node[t].totLen;
      ShiftStart(m, hs, d);
      ShiftRound(m, h, hs, d, 0);
      while mem.next[p] != NULL
        invariant 0 <= i < |hs| && p == hs[i] && mem == Shift(m, hs, d, i)
        invariant p in mem.next
        decreases |hs| - i
      {
        ShiftRound(m, h, hs, d, i);
        ShiftOutside(m, hs, d, i, t);
        mem := mem.SetNode(p, Longer(mem.node[p], mem.node[t].totLen));
        p := mem.next[p];
        i := i + 1;
        ShiftRound(m, h, hs, d, i);
        ShiftOutside(m, hs, d, i, t);
      }
      ShiftRound(m, h, hs, d, i);
      ShiftOutside(m, hs, d, i, t);
      mem := mem.SetNode(p, Longer(mem.node[p], mem.node[t].totLen));
      CatLoopEnd(m, hs, t);
      mem := mem.SetNext(p, t);
      mem := Disowned(mem, t);
    }

    /** pbuf_chain */
    method Chain(h: Ptr, t: Ptr, ghost hs: seq<Ptr>, ghost ts: seq<Ptr>)
      requires mem.Valid() && IsList(mem.next, h, hs) && IsList(mem.next, t, ts) && h != NULL && t != NULL
      requires hs[|hs| - 1] !in ts && t in mem.owners && 0 < mem.owners[t] && mem.ref[t] + 1 < 0x100
      requires var last := hs[|hs| - 1]; last in mem.node && mem.node[last].totLen == mem.node[last].len
      modifies this
      ensures mem.Valid()
      ensures mem == AfterRef(AfterCat(old(mem), hs, t), t)
    {
      ListNodes(mem.next, t, ts);
      Cat(h, t, hs, ts);
      Ref(t);
    }

    /** pbuf_dechain: cuts `p` off its successors and gives up the reference to them.  Returns
        them unless they were deallocated, as told by the 8-bit count of pbuf_free. */
    method Dechain(p: Ptr, ghost qs: seq<Ptr>) returns (tail: Ptr)
      requires mem.Valid() && p in mem.next && IsList(mem.next, mem.next[p], qs)
      requires mem.next[p] != NULL ==> mem.next[p] in mem.node && mem.node[mem.next[p]].totLen == mem.node[p].totLen - mem.node[p].len
      requires mem.next[p] == NULL ==> mem.node[p].totLen == mem.node[p].len
      modifies this
      ensures mem.Valid()
      ensures var m := old(mem);
              if m.next[p] == NULL then mem == m && tail == NULL
              else m.next[p] in m.owners && mem == Dechained(m, p, qs) && tail == Tail(m, p, qs)
    {
      ghost var m := mem;
      var q := mem.next[p];
      var tailGone := 1;
      tail := NULL;
      if q != NULL {
        CutValid(m, p);
        mem := mem.SetNode(q, mem.node[q].(totLen := Low16(mem.node[p].totLen - mem.node[p].len)));
        assert mem.node == m.node;
        mem := mem.SetNext(p, NULL);
        mem := Owned(mem, q);
        assert mem == AfterCut(m, p);
        mem := mem.SetNode(p, mem.node[p].(totLen := mem.node[p].len));
        NodesDoNotMatter(AfterCut(m, p), mem.node);
        RestAfterCut(m, p, qs);
        tailGone := Free(q, qs);
        tail := if tailGone > 0 then NULL else q;
      }
    }

    /** pbuf_add_header_impl; `force` allows moving into memory the pbuf only refers to. */
    method AddHeader(p: Ptr, increment: nat, force: bool) returns (failed: bool)
      requires mem.Valid() && (p != NULL ==> p in mem.node)
      requires p != NULL && force && mem.node[p].kind == Reference ==> increment <= mem.node[p].payload
      modifies this
      ensures mem.Valid()
      ensures failed <==> p == NULL || 0xFFFF < increment || (0 < increment && HeaderRefused(old(mem).node[p], increment, force))
      ensures mem == if failed || increment == 0 then old(mem) else old(mem).SetNode(p, WithHeader(old(mem).node[p], increment))
    {
      if p == NULL || increment > 0xFFFF { return true; }
      if increment == 0 { return false; }
      if Wraps(increment, mem.node[p].totLen) { return true; }
      if mem.node[p].kind != Reference {
        if mem.node[p].payload < increment { return true; }
      } else if !force {
        return true;
      }
      NodesDoNotMatter(mem, mem.node[p := WithHeader(mem.node[p], increment)]);
      mem := mem.SetNode(p, WithHeader(mem.node[p], increment));
      return false;
    }

    /** pbuf_remove_header */
    method RemoveHeader(p: Ptr, decrement: nat) returns (failed: bool)
      requires mem.Valid() && (p != NULL ==> p in mem.node)
      modifies this
      ensures mem.Valid()
      ensures failed <==> p == NULL || 0xFFFF < decrement || old(mem).node[p].len < decrement
      ensures mem == if failed || decrement == 0 then old(mem) else old(mem).SetNode(p, WithoutHeader(old(mem).node[p], decrement))
    {
      if p == NULL || decrement > 0xFFFF { return true; }
      if decrement == 0 { return false; }
      if mem.node[p].len < decrement { return true; }
      NodesDoNotMatter(mem, mem.node[p := WithoutHeader(mem.node[p], decrement)]);
      mem := mem.SetNode(p, WithoutHeader(mem.node[p], decrement));
      return false;
    }

    /** pbuf_realloc: shrinks a packet to `newLen` bytes. */
    method Realloc(p: Ptr, newLen: u16, ghost ps: seq<Ptr>)
      requires mem.Valid() && p != NULL && IsList(mem.next, p, ps) && AllIn(mem.node, ps)
      requires |Flat(mem.node, ps)| < 0x1_0000 && Totals(mem.node, ps)
      modifies this
      ensures mem.Valid()
      ensures mem == if newLen >= |Flat(old(mem).node, ps)| then old(mem) else AfterRealloc(old(mem), p, ps, newLen)
    {
      ghost var m := mem;
      ListNodes(m.next, p, ps);
      assert mem.node[p].totLen == |Flat(mem.node, ps)| by { assert TotalAt(mem.node, ps, 0) && ps[0..] == ps; }
      if newLen >= mem.node[p].totLen { return; }
      ghost var i;
      var q, rem, d;
      q, rem, i, d := ShrinkFront(p, mem.node[p].totLen - newLen, newLen, ps);
      ShortenLast(m, mem, p, ps, newLen, i, rem, d);
      ShortenValid(m, p, ps, newLen);
      mem := mem.SetNode(q, Shortened(mem.node[q], rem));
      CutOff(p, q, i, ps);
    }

    /** The loop of pbuf_realloc: steps over the links that stay as they are but for `tot_len`. */
    method ShrinkFront(p: Ptr, shrink: u16, newLen: u16, ghost ps: seq<Ptr>) returns (q: Ptr, rem: nat, ghost i: nat, d: int)
      requires p != NULL && IsList(mem.next, p, ps) && AllIn(mem.node, ps) && newLen + shrink == |Flat(mem.node, ps)|
      modifies this
      ensures d == -(shrink as int) && i < |ps| && q == ps[i] && mem == Shift(old(mem), ps, d, i)
      ensures q in mem.node && mem.node[q] == old(mem).node[q] && rem <= mem.node[q].len
      ensures Shrinking(old(mem), ps, newLen, i, rem)
    {
      ghost var m := mem;
      d := -(shrink as int);
      rem := newLen;
      q := p;
      i := 0;
      ShrinkStart(m, p, ps, newLen, d);
      while rem > mem.node[q].len
        invariant 0 <= i < |ps| && q == ps[i] && mem == Shift(m, ps, d, i) && Shrinking(m, ps, newLen, i, rem)
        invariant q in mem.node && mem.node[q] == m.node[q]
        decreases |ps| - i
      {
        ShrinkRound(m, p, ps, newLen, d, i, rem);
        rem := rem - mem.node[q].len;
        mem := mem.SetNode(q, Longer(mem.node[q], d));
        q := mem.next[q];
        i := i + 1;
      }
    }

    /** The end of pbuf_realloc: `q` becomes the last link and the links behind it are released.
        The link is cleared before its target is freed; the C code does it right after. */
    method CutOff(p: Ptr, q: Ptr, ghost i: nat, ghost ps: seq<Ptr>)
      requires mem.Valid() && IsList(mem.next, p, ps) && i < |ps| && q == ps[i]
      modifies this
      ensures mem.Valid()
      ensures Linked(old(mem), q) && mem == AfterRelease(old(mem), ps, i)
    {
      CutParts(mem, p, ps, i);
      if mem.next[q] != NULL {
        var rest := mem.next[q];
        mem := mem.SetNext(q, NULL);
        mem := Owned(mem, rest);
        var _ := Free(rest, ps[i + 1..]);
      }
    }

    /** pbuf_split_64k: `rest` takes what does not fit into 16 bits. */
    method Split64k(p: Ptr, ghost ps: seq<Ptr>) returns (rest: Ptr)
      requires mem.Valid() && IsList(mem.next, p, ps) && AllIn(mem.node, ps) && Totals(mem.node, ps)
      modifies this
      ensures mem.Valid()
      ensures var m, k := old(mem), FrontLinks(old(mem).node, ps, 0);
              if k < |ps| then 0 < k && ps[k] in m.owners && rest == ps[k] && mem == AfterSplit(m, ps, k)
              else rest == NULL && mem == m
    {
      ghost var m := mem;
      rest := NULL;
      if p == NULL { return; }
      FirstLinkFits(m.node, ps);
      ListNodes(m.next, p, ps);
      ListAt(m.next, p, ps, 0);
      if mem.next[p] == NULL { return; }
      ghost var j;
      var i, r;
      i, r, j := WalkFront(p, ps);
      rest := CutFront(p, i, r, j, ps);
    }

    /** The first loop of pbuf_split_64k: `i` is the last link of the front, `r` the one behind. */
    method WalkFront(p: Ptr, ghost ps: seq<Ptr>) returns (i: Ptr, r: Ptr, ghost j: nat)
      requires p != NULL && IsList(mem.next, p, ps) && AllIn(mem.node, ps)
      ensures j == FrontLinks(mem.node, ps, 0) && 0 < j <= |ps| && i == ps[j - 1] && r == Head(ps[j..])
    {
      var next, node := mem.next, mem.node;
      ListNodes(next, p, ps);
      FirstLinkFits(node, ps);
      ListAt(next, p, ps, 0);
      var front: u16 := node[p].len;
      i, r := p, next[p];
      j := 1;
      while r != NULL && !Wraps(front, node[r].len)
        invariant 1 <= j <= |ps| && i == ps[j - 1] && r == Head(ps[j..]) && (r == NULL <==> j == |ps|)
        invariant AllIn(node, ps[j..]) && FrontLinks(node, ps, 0) == j + FrontLinks(node, ps[j..], front)
        decreases |ps| - j
      {
        FrontRound(node, ps, j, front);
        ListAt(next, p, ps, j);
        front := Low16(front + node[r].len);
        i := r;
        r := next[r];
        j := j + 1;
      }
      if r != NULL { FrontRound(node, ps, j, front); }
    }

    /** The second half of pbuf_split_64k: `i` is the last link of the front, `r` the next one. */
    method CutFront(p: Ptr, i: Ptr, r: Ptr, ghost k: nat, ghost ps: seq<Ptr>) returns (rest: Ptr)
      requires mem.Valid() && IsList(mem.next, p, ps) && AllIn(mem.node, ps) && Totals(mem.node, ps)
      requires 0 < k <= |ps| && i == ps[k - 1] && r == Head(ps[k..])
      modifies this
      ensures mem.Valid() && rest == r
      ensures if k < |ps| then ps[k] in old(mem).owners && mem == AfterSplit(old(mem), ps, k) else mem == old(mem)
    {
      ghost var m, hs := mem, ps[..k];
      ListNodes(m.next, p, ps);
      ListAt(m.next, p, ps, k - 1);
      mem := mem.SetNext(i, NULL);
      rest := r;
      if r == NULL {
        assert m.next[i := NULL] == m.next;
      } else {
        SplitStart(m, p, ps, hs);
        ghost var cut := mem;
        ghost var d := ShiftAll(p, r, hs);
        SplitDone(m, cut, mem, p, ps, hs, d);
        mem := mem.SetNode(r, FinFrom(mem.node[r], mem.node[p].fin));
        mem := Owned(mem, r);
      }
    }

    /** The second loop of pbuf_split_64k: takes the length of `r` from every `tot_len` in front. */
    method ShiftAll(p: Ptr, r: Ptr, ghost hs: seq<Ptr>) returns (ghost d: int)
      requires IsList(mem.next, p, hs) && AllIn(mem.node, hs) && r in mem.node && r !in hs
      modifies this
      ensures d == -(old(mem).node[r].totLen as int) && mem == Shift(old(mem), hs, d, |hs|)
    {
      ghost var m := mem;
      d := -(mem.node[r].totLen as int);
      ShiftStart(m, hs, d);
      ListNodes(m.next, p, hs);
      var q := p;
      ghost var c := 0;
      while q != NULL
        invariant 0 <= c <= |hs| && mem == Shift(m, hs, d, c) && if c < |hs| then q == hs[c] != NULL else q == NULL
        decreases |hs| - c
      {
        ShiftRound(m, p, hs, d, c);
        ShiftOutside(m, hs, d, c, r);
        mem := mem.SetNode(q, Longer(mem.node[q], -(mem.node[r].totLen as int)));
        q := mem.next[q];
        c := c + 1;
      }
    }

    /** pbuf_free_header: removes bytes from the front and releases links that became empty. */
    method FreeHeader(q: Ptr, size: u16, ghost ps: seq<Ptr>) returns (p: Ptr, ghost k: nat, ghost left: nat)
      requires mem.Valid() && mem.Chain(q, ps) && Totals(mem.node, ps) && (q != NULL ==> q in mem.owners && 0 < mem.owners[q])
      modifies this
      ensures mem.Valid() && k <= |ps| && p == Head(ps[k..])
      ensures Carries(mem, p, ps[k..], Behind(Flat(old(mem).node, ps), size))
      ensures if left == 0 then Dropped(old(mem), mem, ps, k)
              else if k == |ps| then Dropped(old(mem), mem, ps, k) && size == |Flat(old(mem).node, ps)| + left
              else && ps[k] in old(mem).node && left < old(mem).node[ps[k]].len
                   && ps[k] in mem.node && mem.node[ps[k]] == WithoutHeader(old(mem).node[ps[k]], left)
                   && Dropped(old(mem), mem.SetNode(ps[k], old(mem).node[ps[k]]), ps, k)
    {
      ghost var m := mem;
      p := q;
      var freeLeft: u16 := size;
      k := 0;
      FreeingStart(m, q, ps, size);
      while freeLeft != 0 && p != NULL
        invariant 0 <= k <= |ps| && p == Head(ps[k..]) && Freeing(m, mem, ps, size, k, freeLeft)
        decreases |ps| - k
      {
        FreeingAt(m, mem, q, ps, size, k, freeLeft);
        if freeLeft >= mem.node[p].len {
          p, freeLeft, k := DropFirst(q, p, freeLeft, m, ps, size, k);
        } else {
          FreeingHeader(m, mem, q, ps, size, k, freeLeft);
          FreeingFrame(m, mem, ps, size, k, freeLeft);
          left := freeLeft;
          var _ := RemoveHeader(p, freeLeft);
          return;
        }
      }
      FreeingDone(m, mem, q, ps, size, k, freeLeft);
      left := freeLeft;
    }

    /** pbuf_free_header releases the first link `f`, all of whose bytes are to be removed. */
    method DropFirst(q: Ptr, f: Ptr, freeLeft: u16, ghost m: Memory, ghost ps: seq<Ptr>, ghost size: nat, ghost k: nat)
      returns (p: Ptr, freeLeft': u16, ghost k': nat)
      requires m.Valid() && m.Chain(q, ps) && Freeing(m, mem, ps, size, k, freeLeft) && k < |ps| && f == ps[k]
      requires f in mem.node && mem.node[f].len <= freeLeft
      modifies this
      ensures k' == k + 1 && p == Head(ps[k'..]) && Freeing(m, mem, ps, size, k', freeLeft')
    {
      k', freeLeft' := k + 1, freeLeft - mem.node[f].len;
      FreeingRound(m, mem, q, ps, size, k, freeLeft, k', freeLeft');
      DropCut(mem, f, ps[k..]);
      p := mem.next[f];
      ghost var cut := AfterCut(mem, f);
      mem := mem.SetNext(f, NULL);
      if p != NULL { mem := Owned(mem, p); }
      assert mem == cut;
      var _ := Free(f, [f]);
    }

    // ---- writing ----------------------------------------------------------------------

    /** One link of pbuf_take. */
    method TakeInto(q: Ptr, data: seq<byte>, copied: nat, ghost nodes: Nodes, ghost ps: seq<Ptr>, ghost i: nat)
      returns (copied': nat, ghost i': nat)
      requires AllIn(nodes, ps) && Distinct(ps) && Taking(nodes, mem.node, ps, data, i, copied) && copied < |data|
      requires i < |ps| && q == ps[i] && q in mem.node && mem.node[q].len == nodes[q].len
      modifies this
      ensures mem == old(mem).(node := mem.node) && i' == i + 1 && copied' <= |data|
      ensures Taking(nodes, mem.node, ps, data, i', copied')
    {
      var n := |data| - copied;
      if n > mem.node[q].len { n := mem.node[q].len; }
      copied', i' := copied + n, i + 1;
      var x := data[copied..copied'];
      TakeLink(nodes, mem.node, ps, data, i, q, copied, x, i', copied');
      mem := mem.SetNode(q, Write(mem.node[q], 0, x));
    }

    /** pbuf_take: overwrites the first bytes of a chain. */
    method Take(p: Ptr, data: seq<byte>, ghost ps: seq<Ptr>) returns (err: Err)
      requires mem.Chain(p, ps) && |Flat(mem.node, ps)| < 0x1_0000 && (ps != [] ==> TotalAt(mem.node, ps, 0))
      modifies this
      ensures err == if p == NULL then BadArgument else if |Flat(old(mem).node, ps)| < |data| then OutOfMemory else Ok
      ensures if err == Ok then mem == old(mem).(node := mem.node) && Overwritten(old(mem).node, mem.node, ps, Splice(Flat(old(mem).node, ps), 0, data))
              else mem == old(mem)
    {
      ghost var m := mem;
      ListNodes(m.next, p, ps);
      ListDistinct(m.next, p, ps);
      if p == NULL { return BadArgument; }
      assert ps[0..] == ps;
      if mem.node[p].totLen < |data| { return OutOfMemory; }
      var q, copied: nat := p, 0;
      ghost var i := 0;
      TakeStart(m.node, ps, data);
      while |data| - copied != 0
        invariant mem == m.(node := mem.node) && Taking(m.node, mem.node, ps, data, i, copied)
        invariant copied <= |data| && q == Head(ps[i..])
        decreases |ps| - i
      {
        TakeRound(m.node, mem.node, ps, data, i, copied);
        NextLink(m, p, ps, i);
        copied, i := TakeInto(q, data, copied, m.node, ps, i);
        q := mem.next[q];
      }
      assert data[..copied] == data;
      return Ok;
    }

    /** pbuf_take_at: overwrites bytes from `offset` on; there must be a byte at `offset`. */
    method TakeAt(p: Ptr, data: seq<byte>, offset: u16, ghost ps: seq<Ptr>) returns (err: Err)
      requires mem.Chain(p, ps) && |Flat(mem.node, ps)| < 0x1_0000 && Totals(mem.node, ps)
      modifies this
      ensures err == if offset < |Flat(old(mem).node, ps)| && offset + |data| <= |Flat(old(mem).node, ps)| then Ok else OutOfMemory
      ensures if err == Ok then mem == old(mem).(node := mem.node) && Overwritten(old(mem).node, mem.node, ps, Splice(Flat(old(mem).node, ps), offset, data))
              else mem == old(mem)
    {
      ghost var m := mem;
      var q, at;
      ghost var k;
      q, at, k := Skip(mem, p, offset, ps);
      ListNodes(m.next, p, ps);
      ListDistinct(m.next, p, ps);
      if q != NULL { SkippedTotal(m, ps, offset, k, at); }
      if q == NULL || mem.node[q].totLen < at + |data| { return OutOfMemory; }
      var x := data[..Min(mem.node[q].len - at, |data|)];
      TakeAtFirst(m, p, ps, data, offset, k, at, x);
      mem := mem.SetNode(q, Write(mem.node[q], at, x));
      if |data| - |x| > 0 {
        var y := data[|x|..];
        TakeAtRest(m, mem, p, ps, offset, k, at, x, |y|);
        ghost var m' := mem;
        err := Take(mem.next[q], y, ps[k + 1..]);
        TakeAtEnd(m.node, m'.node, mem.node, ps, k + 1, offset, x, y, data);
      } else {
        assert |x| == |data| && data[..|data|] == data;
        err := Ok;
      }
    }

    /** pbuf_put_at: nothing happens behind the end. */
    method PutAt(p: Ptr, offset: u16, data: byte, ghost ps: seq<Ptr>)
      requires mem.Chain(p, ps)
      modifies this
      ensures if offset < |Flat(old(mem).node, ps)| then mem == old(mem).(node := mem.node) && Overwritten(old(mem).node, mem.node, ps, Splice(Flat(old(mem).node, ps), offset, [data]))
              else mem == old(mem)
    {
      var q, at;
      ghost var k;
      q, at, k := Skip(mem, p, offset, ps);
      ListNodes(mem.next, p, ps);
      if q != NULL && mem.node[q].len > at {
        ByteInLink(mem, ps, offset, k, at);
        assert [data] == [data][..1];
        TakeAtFirst(mem, p, ps, [data], offset, k, at, [data]);
        mem := mem.SetNode(q, Write(mem.node[q], at, [data]));
      }
    }

    /** pbuf_copy between two packets, however their bytes are spread over links. */
    method Copy(to: Ptr, from: Ptr, ghost ts: seq<Ptr>, ghost fs: seq<Ptr>) returns (err: Err)
      requires Packet(mem, to, ts) && Packet(mem, from, fs) && forall x :: x in fs ==> x !in ts
      modifies this
      ensures err == if ts == [] || fs == [] || |Flat(old(mem).node, ts)| < |Flat(old(mem).node, fs)| then BadArgument else Ok
      ensures if err == Ok then mem == old(mem).(node := mem.node)
                && Overwritten(old(mem).node, mem.node, ts, Splice(Flat(old(mem).node, ts), 0, Flat(old(mem).node, fs)))
              else mem == old(mem)
    {
      ghost var m, b := mem, Flat(mem.node, fs);
      TotalOfPacket(m, to, ts);
      TotalOfPacket(m, from, fs);
      if to == NULL || from == NULL || mem.node[to].totLen < mem.node[from].totLen { return BadArgument; }
      var t, f, offsetTo: nat, offsetFrom: nat := to, from, 0, 0;
      ghost var c: nat, i: nat, j: nat := 0, 0, 0;
      CopiedStart(m.node, ts, b);
      StandsStart(m.node, ts);
      StandsStart(m.node, fs);
      while true
        invariant mem == m.(node := mem.node) && Copied(m.node, mem.node, ts, b, c)
        invariant Stands(m.node, fs, c, i, offsetFrom) && i < |fs| && f == fs[i]
        invariant Stands(m.node, ts, c, j, offsetTo) && j < |ts| && t == ts[j]
        decreases |fs| - i + |ts| - j
      {
        t, offsetTo, f, offsetFrom, c, i, j := CopyPiece(t, offsetTo, f, offsetFrom, to, from, m, ts, fs, b, c, i, j);
        StandsAtEnd(m.node, fs, c, i, offsetFrom);
        StandsAtEnd(m.node, ts, c, j, offsetTo);
        if t == NULL && f != NULL { return BadArgument; }
        if f != NULL {
          NoQueue(m, from, fs, i);
          if mem.node[f].len == mem.node[f].totLen && mem.next[f] != NULL { return BadValue; }
        }
        if t != NULL {
          NoQueue(m, to, ts, j);
          if mem.node[t].len == mem.node[t].totLen && mem.next[t] != NULL { return BadValue; }
        }
        if f == NULL { break; }
      }
      assert b[..c] == b;
      return Ok;
    }

    /** The MEMCPY of pbuf_copy. */
    method MemCpy(t: Ptr, offsetTo: nat, f: Ptr, offsetFrom: nat, n: nat, ghost to: Ptr,
                  ghost m: Memory, ghost ts: seq<Ptr>, ghost fs: seq<Ptr>, ghost b: seq<byte>, ghost c: nat, ghost i: nat, ghost j: nat)
      returns (ghost c': nat)
      requires m.Chain(to, ts) && AllIn(m.node, fs) && b == Flat(m.node, fs)
      requires mem == m.(node := mem.node) && Copied(m.node, mem.node, ts, b, c) && f in mem.node && t in mem.node
      requires Stands(m.node, fs, c, i, offsetFrom) && i < |fs| && f == fs[i] && mem.node[f] == m.node[f] && offsetFrom + n <= m.node[f].len
      requires Stands(m.node, ts, c, j, offsetTo) && j < |ts| && t == ts[j] && mem.node[t].len == m.node[t].len && offsetTo + n <= m.node[t].len
      modifies this
      ensures mem == m.(node := mem.node) && Copied(m.node, mem.node, ts, b, c') && c' == c + n
    {
      ListDistinct(m.next, to, ts);
      c' := c + n;
      StandsInside(m.node, fs, c, i, offsetFrom, n);
      var x := BytesOf(mem.node[f])[offsetFrom..offsetFrom + n];
      CopiedNext(m.node, mem.node, ts, b, c, j, offsetTo, t, x, c');
      mem := mem.SetNode(t, Write(mem.node[t], offsetTo, x));
    }

    /** MEMCPY of what both current links can take, and the steps to the next links. */
    method CopyPiece(t: Ptr, offsetTo: nat, f: Ptr, offsetFrom: nat, ghost to: Ptr, ghost from: Ptr,
                     ghost m: Memory, ghost ts: seq<Ptr>, ghost fs: seq<Ptr>, ghost b: seq<byte>, ghost c: nat, ghost i: nat, ghost j: nat)
      returns (t': Ptr, offsetTo': nat, f': Ptr, offsetFrom': nat, ghost c': nat, ghost i': nat, ghost j': nat)
      requires Packet(m, to, ts) && Packet(m, from, fs) && b == Flat(m.node, fs) && forall x :: x in fs ==> x !in ts
      requires mem == m.(node := mem.node) && Copied(m.node, mem.node, ts, b, c)
      requires Stands(m.node, fs, c, i, offsetFrom) && i < |fs| && f == fs[i]
      requires Stands(m.node, ts, c, j, offsetTo) && j < |ts| && t == ts[j]
      modifies this
      ensures mem == m.(node := mem.node) && Copied(m.node, mem.node, ts, b, c')
      ensures Stands(m.node, fs, c', i', offsetFrom') && f' == Head(fs[i'..]) && (f' == NULL <==> i' == |fs|)
      ensures Stands(m.node, ts, c', j', offsetTo') && t' == Head(ts[j'..]) && (t' == NULL <==> j' == |ts|)
      ensures i <= i' && j <= j' && i + j < i' + j'
    {
      NextLink(m, from, fs, i);
      NextLink(m, to, ts, j);
      assert f in mem.node && mem.node[f] == m.node[f] && t in mem.node && mem.node[t].len == m.node[t].len;
      var n := mem.node[t].len - offsetTo;
      if n >= mem.node[f].len - offsetFrom { n := mem.node[f].len - offsetFrom; }
      c' := MemCpy(t, offsetTo, f, offsetFrom, n, to, m, ts, fs, b, c, i, j);
      assert f in mem.node && mem.node[f].len == m.node[f].len && t in mem.node && mem.node[t].len == m.node[t].len;
      t', offsetTo', j' := t, offsetTo + n, j;
      f', offsetFrom', i' := f, offsetFrom + n, i;
      if offsetFrom' >= mem.node[f].len {
        offsetFrom', f', i' := 0, mem.next[f], i + 1;
      }
      if offsetTo' == mem.node[t].len {
        offsetTo', t', j' := 0, mem.next[t], j + 1;
      }
      StandsNext(m.node, fs, c, i, offsetFrom, c', i', offsetFrom');
      StandsNext(m.node, ts, c, j, offsetTo, c', j', offsetTo');
    }
  }
}
