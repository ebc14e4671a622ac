/** lwip/core/mem.c: the heap whose blocks are threaded through one byte array.

    `ram[p]` is the `struct mem` that the bytes at offset `p` hold when they are read as a header;
    pointers are offsets into the heap, as mem_to_ptr computes them. */
module Heap {
  import opened Alignment
  import opened HeapLayout
  import opened Wrappers

  datatype Header = Header(next: nat, prev: nat, used: bool)

  /** What mem_free did with its argument. */
  datatype FreeOutcome = Ignored | Illegal | Freed

  /** The header that links block `i` of `v` to its neighbours. */
  function HeaderOf(v: Layout, i: nat): Header
    requires i < |v|
  {
    Header(v[i].end, if i == 0 then 0 else v[i - 1].start, v[i].used)
  }

  /** The header of block `j` of `w` when `w` stands behind the first `k` blocks of `v`. */
  function HeaderAt(v: Layout, k: nat, w: Layout, j: nat): Header
    requires k <= |v| && j < |w|
  {
    Header(w[j].end, if 0 < j then w[j - 1].start else if 0 < k then v[k - 1].start else 0, w[j].used)
  }

  ghost predicate Threaded(c: Config, h: seq<Header>, v: Layout) {
    && |h| == c.memSize + 1
    && v != [] && Tiles(c, v, 0, c.memSize)
    && h[c.memSize] == Header(c.memSize, c.memSize, true)
    && (forall i :: 0 <= i < |v| ==> v[i].start < c.memSize)
    && (forall i {:trigger HeaderOf(v, i)} :: 0 <= i < |v| ==> h[v[i].start] == HeaderOf(v, i))
  }

  /** The headers of a layout in which the blocks from `k` on were replaced by `w`:
      besides those of `w` only the `prev` link behind them may change. */
  lemma {:induction false} ThreadReplaced(c: Config, h: seq<Header>, h': seq<Header>, v: Layout, k: nat, n: nat, w: Layout)
    requires Threaded(c, h, v) && 0 < n && k + n <= |v| && w != []
    requires Tiles(c, w, v[k].start, v[k + n - 1].end)
    requires |h'| == |h| && h'[c.memSize] == h[c.memSize]
    requires forall i :: 0 <= i < |v| && (i < k || k + n < i) ==> h'[v[i].start] == h[v[i].start]
    requires k + n < |v| ==> h'[v[k + n].start] == h[v[k + n].start].(prev := w[|w| - 1].start)
    requires forall j :: 0 <= j < |w| ==> w[j].start < c.memSize && h'[w[j].start] == HeaderAt(v, k, w, j)
    ensures Threaded(c, h', Replace(v, k, n, w))
  {
    var r := Replace(v, k, n, w);
    ReplaceTiles(c, v, 0, c.memSize, k, n, w);
    assert forall i :: 0 <= i < |r| ==> r[i].start < c.memSize;
    forall i | 0 <= i < |r| ensures h'[r[i].start] == HeaderOf(r, i) {
      if i < k {
        assert r[i] == v[i] && (0 < i ==> r[i - 1] == v[i - 1]);
        assert h[v[i].start] == HeaderOf(v, i);
        assert h'[r[i].start] == HeaderOf(r, i);
      } else if i < k + |w| {
        var j := i - k;
        assert r[i] == w[j];
        assert i == k && 0 < k ==> r[i - 1] == v[k - 1];
        assert k < i ==> r[i - 1] == w[j - 1];
        assert h'[w[j].start] == HeaderOf(r, i);
      } else {
        var j := i - |w| + n;
        assert r[i] == v[j] && h[v[j].start] == HeaderOf(v, j);
        if i == k + |w| {
          assert r[i - 1] == w[|w| - 1];
          assert h'[v[k + n].start] == HeaderOf(r, i);
        } else {
          assert r[i - 1] == v[j - 1];
          assert h'[v[j].start] == HeaderOf(r, i);
        }
      }
    }
  }

  /** The assignment `ptr_to_mem(p)->prev = x`, left out for the end of the heap. */
  function LinkBack(c: Config, h: seq<Header>, p: nat, x: nat): seq<Header>
    requires |h| == c.memSize + 1 && p <= c.memSize
  {
    if p == c.memSize then h else h[p := h[p].(prev := x)]
  }

  /** Headers change only at the offsets in `starts`. */
  ghost predicate WritesHeaders(h: seq<Header>, h': seq<Header>, starts: set<nat>) {
    && |h| == |h'|
    && forall p :: 0 <= p < |h| && h[p] != h'[p] ==> p in starts
  }

  lemma {:induction false} WritesThree(a: seq<Header>, b: seq<Header>, d: seq<Header>, e: seq<Header>, v: Layout, w: Layout, x: Layout)
    requires WritesHeaders(a, b, Starts(v)) && WritesHeaders(b, d, Starts(w)) && WritesHeaders(d, e, Starts(x))
    requires Starts(w) == Starts(v) && Starts(x) <= Starts(w)
    ensures WritesHeaders(a, e, Starts(v))
  {
  }

  lemma {:induction false} MarkThreaded(c: Config, h: seq<Header>, v: Layout, k: nat, used: bool)
    requires Threaded(c, h, v) && k < |v|
    ensures Threaded(c, h[v[k].start := h[v[k].start].(used := used)], v[k := v[k].(used := used)])
  {
    var b := v[k].(used := used);
    var h' := h[v[k].start := h[v[k].start].(used := used)];
    OnlyBlockAt(c, v, 0, c.memSize, k);
    TileAt(c, v, 0, c.memSize, k);
    TilesOne(c, b);
    assert v[k := b] == Replace(v, k, 1, [b]);
    assert h[v[k].start] == HeaderOf(v, k);
    assert k + 1 < |v| ==> h[v[k + 1].start] == HeaderOf(v, k + 1);
    ThreadReplaced(c, h, h', v, k, 1, [b]);
  }

  /** The first step of mem_free: clear `used` and lower `lfree`. */
  lemma {:induction false} MarkFree(c: Config, h: seq<Header>, v: Layout, k: nat)
    requires Threaded(c, h, v) && k < |v| && v[k].used
    ensures var u := v[k := v[k].(used := false)];
            && v[k].start < c.memSize
            && Threaded(c, h[v[k].start := h[v[k].start].(used := false)], u)
            && v[k].start in Starts(v) && Starts(u) == Starts(v) && Starts(MergeForward(u, k)) <= Starts(v)
            && LowestFree(c, u) == if v[k].start < LowestFree(c, v) then v[k].start else LowestFree(c, v)
  {
    MarkThreaded(c, h, v, k, false);
    MarkStarts(v, k, false);
    MergeStarts(v[k := v[k].(used := false)], k);
    LowestFreeOfMark(c, v, k);
    assert v[k] in v;
  }

  /** Two header writes join the free block at `m` with the free block behind it. */
  lemma {:induction false} JoinThreaded(c: Config, h: seq<Header>, v: Layout, k: nat)
    requires Threaded(c, h, v) && k + 1 < |v| && !v[k].used && !v[k + 1].used
    requires v[k].start <= c.memSize && v[k + 1].end <= c.memSize
    ensures var h' := LinkBack(c, h[v[k].start := h[v[k].start].(next := v[k + 1].end)], v[k + 1].end, v[k].start);
            && Threaded(c, h', Replace(v, k, 2, [Block(v[k].start, v[k + 1].end, false)]))
            && WritesHeaders(h, h', Starts(v))
  {
    OnlyBlockAt(c, v, 0, c.memSize, k);
    if k + 2 < |v| { OnlyBlockAt(c, v, 0, c.memSize, k + 2); }
    TileAt(c, v, 0, c.memSize, k);
    TileAt(c, v, 0, c.memSize, k + 1);
    assert h[v[k].start] == HeaderOf(v, k) && h[v[k + 1].start] == HeaderOf(v, k + 1);
    assert k + 2 < |v| ==> h[v[k + 2].start] == HeaderOf(v, k + 2);
    var hole := Block(v[k].start, v[k + 1].end, false);
    var h' := LinkBack(c, h[hole.start := h[hole.start].(next := hole.end)], hole.end, hole.start);
    TilesOne(c, hole);
    assert h'[hole.start] == HeaderAt(v, k, [hole], 0);
    ThreadReplaced(c, h, h', v, k, 2, [hole]);
    assert v[k] in v && (k + 2 < |v| ==> v[k + 2] in v);
  }

  /** Three header writes put a used block that ends at `cut` and a free one behind it in
      place of the `n` blocks from `k` on. */
  lemma {:induction false} SplitThreaded(c: Config, h: seq<Header>, v: Layout, k: nat, n: nat, cut: nat)
    requires Threaded(c, h, v) && 1 <= n <= 2 && k + n <= |v|
    requires v[k].start < cut <= c.memSize && v[k + n - 1].end <= c.memSize
    requires Sound(c, Block(v[k].start, cut, true)) && Sound(c, Block(cut, v[k + n - 1].end, false))
    ensures var ptr, end := v[k].start, v[k + n - 1].end;
            var h' := LinkBack(c, h[cut := Header(end, ptr, false)][ptr := h[ptr].(next := cut, used := true)], end, cut);
            && Threaded(c, h', Replace(v, k, n, [Block(ptr, cut, true), Block(cut, end, false)]))
            && WritesHeaders(h, h', Starts(v) + {cut})
            && cut in Starts(Replace(v, k, n, [Block(ptr, cut, true), Block(cut, end, false)]))
  {
    var ptr, end := v[k].start, v[k + n - 1].end;
    var h' := LinkBack(c, h[cut := Header(end, ptr, false)][ptr := h[ptr].(next := cut, used := true)], end, cut);
    var w := [Block(ptr, cut, true), Block(cut, end, false)];
    TilesPair(c, w[0], w[1]);
    SplitOffsets(c, v, k, n, cut);
    assert h[v[k].start] == HeaderOf(v, k);
    assert k + n < |v| ==> h[v[k + n].start] == HeaderOf(v, k + n) && v[k + n] in v;
    assert v[k] in v;
    assert w[1] in Replace(v, k, n, w);
    ThreadReplaced(c, h, h', v, k, n, w);
  }

  lemma {:induction false} SplitOffsets(c: Config, v: Layout, k: nat, n: nat, cut: nat)
    requires Tiles(c, v, 0, c.memSize) && 1 <= n <= 2 && k + n <= |v| && v[k].start < cut < v[k + n - 1].end
    ensures forall i :: 0 <= i < |v| && (i < k || k + n <= i) ==> v[i].start != cut && v[i].start != v[k].start
    ensures forall i :: 0 <= i < |v| && (i < k || k + n < i) ==> v[i].start != v[k + n - 1].end
    ensures if k + n < |v| then v[k + n].start == v[k + n - 1].end else v[k + n - 1].end == c.memSize
  {
    AllOrdered(c, v, 0, c.memSize);
    TileAt(c, v, 0, c.memSize, k + n - 1);
  }

  /** No header lies in the user bytes of a live block, so an operation never touches
      the data of a block that is live before and after it. */
  lemma {:induction false} UserDataUntouched(c: Config, h: seq<Header>, h': seq<Header>, v: Layout, w: Layout, b: Block, p: nat)
    requires WellFormed(c, v) && WellFormed(c, w) && WritesHeaders(h, h', Starts(v) + Starts(w))
    requires b in Live(v) && b in Live(w) && p < |h| && h[p] != h'[p]
    ensures p + c.header <= b.start + c.header || b.end <= p
  {
    AllOrdered(c, v, 0, c.memSize);
    AllOrdered(c, w, 0, c.memSize);
    var i :| 0 <= i < |v| && v[i] == b;
    var j :| 0 <= j < |w| && w[j] == b;
  }

  /** `rmem` is the user pointer of block `k`. */
  ghost predicate PointsTo(c: Config, v: Layout, rmem: Option<int>, k: int) {
    0 <= k < |v| && rmem == Some(v[k].start + c.header)
  }

  class Heap {
    const c: Config
    const ram: array<Header>
    var lfree: nat
    ghost var blocks: Layout

    ghost predicate Linked()
      reads this, ram
    {
      ram.Length == c.memSize + 1 && Threaded(c, ram[..], blocks)
    }

    ghost predicate Valid()
      reads this, ram
    {
      Linked() && WellFormed(c, blocks) && lfree == LowestFree(c, blocks)
    }

    /** mem_init */
    constructor (config: Config)
      ensures Valid() && fresh(ram) && c == config
      ensures blocks == InitialLayout(c)
    {
      c := config;
      ram := new Header[config.memSize + 1](i => Header(0, 0, false));
      lfree := 0;
      blocks := InitialLayout(config);
      new;
      ram[0] := Header(c.memSize, 0, false);
      ram[c.memSize] := Header(c.memSize, c.memSize, true);
      InitialWellFormed(c);
    }

    /** mem_link_valid: reads are in bounds whatever the header holds. */
    predicate LinkValid(mem: nat)
      requires mem < ram.Length && ram.Length == c.memSize + 1
      reads this, ram
    {
      var next, prev := ram[mem].next, ram[mem].prev;
      !(next > c.memSize || prev > c.memSize
        || (prev != mem && ram[prev].next != mem)
        || (next != c.memSize && ram[next].prev != mem))
    }

    /** The checks of mem_free that come before the heap is changed. */
    predicate Plausible(rmem: int)
      requires ram.Length == c.memSize + 1
      reads this, ram
    {
      && 0 <= rmem && Aligned(c.align, rmem)
      && c.header <= rmem && rmem + c.minSize <= c.memSize
      && ram[rmem - c.header].used && LinkValid(rmem - c.header)
    }

    /** The pointer of a live block passes every check. */
    lemma {:induction false} LivePointerPlausible(k: nat)
      requires Valid() && k < |blocks| && blocks[k].used
      ensures Plausible(blocks[k].start + c.header)
    {
      Neighbours(k);
      AlignedSum(c.align, blocks[k].start, c.header);
    }

    /** plug_holes, forward: joins the free block `k` with a free block behind it.  `lfree` is moved
        exactly if it points to the latter though block `k` is free, too. */
    method PlugForward(mem: nat, ghost k: nat) returns (moved: bool)
      requires Linked() && k < |blocks| && blocks[k].start == mem && !blocks[k].used
      requires lfree == LowestFree(c, blocks) || (k == FirstFree(blocks) && lfree == blocks[k].end && k + 1 < |blocks| && !blocks[k + 1].used)
      modifies this`lfree, this`blocks, ram
      ensures Linked() && lfree == LowestFree(c, blocks) && (moved <==> old(lfree) != LowestFree(c, old(blocks)))
      ensures blocks == MergeForward(old(blocks), k)
      ensures WritesHeaders(old(ram[..]), ram[..], Starts(old(blocks)))
    {
      ghost var v, h := blocks, ram[..];
      Neighbours(k);
      moved := false;
      var nmem := ram[mem].next;
      assert (k + 1 < |v| && !v[k + 1].used) == (mem != nmem && !ram[nmem].used && nmem != c.memSize);
      if mem != nmem && !ram[nmem].used && nmem != c.memSize {
        Neighbours(k + 1);
        JoinThreaded(c, h, v, k);
        LowestFreeOfJoin(c, v, k);
        moved := lfree == nmem;
        if moved { lfree := mem; }
        ram[mem] := ram[mem].(next := ram[nmem].next);
        if ram[nmem].next != c.memSize {
          ram[ram[nmem].next] := ram[ram[nmem].next].(prev := mem);
        }
        blocks := MergeForward(v, k);
        assert ram[..] == LinkBack(c, h[mem := h[mem].(next := v[k + 1].end)], v[k + 1].end, mem);
        assert Linked() && lfree == LowestFree(c, blocks);
      }
    }

    /** plug_holes, backward: joins the free block `k` with a free block before it.  `lfree` is
        moved exactly if it points to block `k` though the one before is free, too. */
    method PlugBackward(mem: nat, ghost k: nat) returns (moved: bool)
      requires Linked() && k < |blocks| && blocks[k].start == mem && !blocks[k].used
      requires lfree == LowestFree(c, blocks) || (k == FirstFree(blocks) + 1 && lfree == mem)
      modifies this`lfree, this`blocks, ram
      ensures Linked() && lfree == LowestFree(c, blocks) && (moved <==> old(lfree) != LowestFree(c, old(blocks)))
      ensures blocks == MergeBackward(old(blocks), k)
      ensures WritesHeaders(old(ram[..]), ram[..], Starts(old(blocks)))
    {
      ghost var v, h := blocks, ram[..];
      Neighbours(k);
      moved := false;
      var pmem := ram[mem].prev;
      assert (0 < k && !v[k - 1].used) == (pmem != mem && !ram[pmem].used);
      if pmem != mem && !ram[pmem].used {
        Neighbours(k - 1);
        JoinThreaded(c, h, v, k - 1);
        LowestFreeOfJoin(c, v, k - 1);
        moved := lfree == mem;
        if moved { lfree := pmem; }
        ram[pmem] := ram[pmem].(next := ram[mem].next);
        if ram[mem].next != c.memSize {
          ram[ram[mem].next] := ram[ram[mem].next].(prev := pmem);
        }
        blocks := MergeBackward(v, k);
        assert ram[..] == LinkBack(c, h[pmem := h[pmem].(next := v[k].end)], v[k].end, pmem);
        assert Linked() && lfree == LowestFree(c, blocks);
      }
    }

    /** mem_free.  Pointers that were never handed out are rejected by the checks; the
        caller must not pass one whose bytes look like a linked header all the same. */
    method Free(rmem: Option<int>) returns (outcome: FreeOutcome)
      requires Valid()
      requires rmem.Some? && Plausible(rmem.value) ==> exists k :: PointsTo(c, blocks, rmem, k)
      modifies this`lfree, this`blocks, ram
      ensures Valid()
      ensures outcome == Ignored <==> rmem == None
      ensures forall k :: PointsTo(c, old(blocks), rmem, k) ==>
                if old(blocks)[k].used then outcome == Freed && blocks == Release(old(blocks), k) else outcome == Illegal
      ensures outcome == Freed ==> exists k :: PointsTo(c, old(blocks), rmem, k)
      ensures outcome != Freed ==> blocks == old(blocks) && ram[..] == old(ram[..])
      ensures WritesHeaders(old(ram[..]), ram[..], Starts(old(blocks)))
    {
      forall k | 0 <= k < |blocks| && blocks[k].used ensures Plausible(blocks[k].start + c.header) {
        LivePointerPlausible(k);
      }
      if rmem == None { return Ignored; }
      if rmem.value < 0 || !Aligned(c.align, rmem.value) { return Illegal; }
      var mem := rmem.value - c.header;
      if mem < 0 || rmem.value + c.minSize > c.memSize { return Illegal; }
      if !ram[mem].used { return Illegal; }
      if !LinkValid(mem) { return Illegal; }
      ghost var k :| PointsTo(c, blocks, rmem, k);
      Neighbours(k);
      OnlyBlockAt(c, blocks, 0, c.memSize, k);
      var _ := FreeBlock(mem, k);
      outcome := Freed;
    }

    /** The part of mem_free behind the checks.  As it has lowered `lfree` first, plug_holes never
        moves it. */
    method FreeBlock(mem: nat, ghost k: nat) returns (moved: bool)
      requires Valid() && k < |blocks| && blocks[k].start == mem && blocks[k].used
      modifies this`lfree, this`blocks, ram
      ensures Valid() && blocks == Release(old(blocks), k) && !moved
      ensures WritesHeaders(old(ram[..]), ram[..], Starts(old(blocks)))
    {
      ghost var h := ram[..];
      ReleaseWellFormed(c, blocks, k);
      MarkBlockFree(mem, k);
      ghost var v1, h1 := blocks, ram[..];
      var forward := PlugForward(mem, k);
      ghost var v2, h2 := blocks, ram[..];
      var backward := PlugBackward(mem, k);
      WritesThree(h, h1, h2, ram[..], old(blocks), v1, v2);
      moved := forward || backward;
    }

    /** Clears `used` and lowers `lfree`. */
    method MarkBlockFree(mem: nat, ghost k: nat)
      requires Valid() && k < |blocks| && blocks[k].start == mem && blocks[k].used
      modifies this`lfree, this`blocks, ram
      ensures Linked() && lfree == LowestFree(c, blocks) && blocks == old(blocks)[k := old(blocks)[k].(used := false)]
      ensures Starts(blocks) == Starts(old(blocks)) && Starts(MergeForward(blocks, k)) <= Starts(blocks)
      ensures WritesHeaders(old(ram[..]), ram[..], Starts(old(blocks)))
    {
      ghost var h := ram[..];
      MarkFree(c, h, blocks, k);
      ram[mem] := ram[mem].(used := false);
      if mem < lfree { lfree := mem; }
      blocks := blocks[k := blocks[k].(used := false)];
      assert ram[..] == h[mem := h[mem].(used := false)];
    }

    /** mem_malloc: first fit from `lfree` on.  It fails only on a size of 0, on one that
        does not fit the heap or its integer type, or when no free block can hold it. */
    method Malloc(sizeIn: nat) returns (r: Option<nat>)
      requires Valid() && sizeIn < c.sizeRange
      modifies this`lfree, this`blocks, ram
      ensures Valid() && blocks == MallocLayout(c, old(blocks), sizeIn)
      ensures r == MallocResult(c, old(blocks), sizeIn) && Allocates(c, old(blocks), blocks, sizeIn, r)
      ensures WritesHeaders(old(ram[..]), ram[..], Starts(old(blocks)) + Starts(blocks))
    {
      MallocAllocates(c, blocks, sizeIn);
      if sizeIn == 0 { return None; }
      var size := c.RoundUp(sizeIn);
      if size > c.memSize || size < sizeIn { return None; }
      r := Scan(size);
    }

    /** The search loop of mem_malloc, from `lfree` on. */
    method Scan(size: nat) returns (r: Option<nat>)
      requires Valid() && Aligned(c.align, size) && c.minSize <= size <= c.memSize
      modifies this`lfree, this`blocks, ram
      ensures Valid()
      ensures var k := FirstFit(c, old(blocks), size, 0);
              if k < |old(blocks)| then r == Some(old(blocks)[k].start + c.header) && blocks == Take(c, old(blocks), k, size)
              else r == None && blocks == old(blocks)
      ensures WritesHeaders(old(ram[..]), ram[..], Starts(old(blocks)) + Starts(blocks))
    {
      ghost var v := blocks;
      var ptr := lfree;
      ghost var i := FirstFree(v);
      while ptr < c.memSize - size
        invariant blocks == v && ram[..] == old(ram[..]) && Valid()
        invariant 0 <= i <= |v| && ptr == OffsetOf(c, v, i)
        invariant forall j :: 0 <= j < i ==> !Fits(c, v[j], size)
        decreases |v| - i
      {
        Neighbours(i);
        if !ram[ptr].used && ram[ptr].next - (ptr + c.header) >= size {
          FirstFitIs(c, v, size, i);
          Serve(ptr, size, i);
          return Some(ptr + c.header);
        }
        ptr := ram[ptr].next;
        i := i + 1;
      }
      TooHigh(c, v, i, size);
      return None;
    }

    /** Makes block `k` end at `ptr2` and puts a free block behind it, in place of the rest of
        block `k` and, for `n == 2`, of the free block that followed it up to now. */
    method InsertFree(ptr: nat, ptr2: nat, next: nat, ghost k: nat, ghost n: nat)
      requires Linked() && 1 <= n <= 2 && k + n <= |blocks| && blocks[k].start == ptr < ptr2 <= c.memSize
      requires blocks[k + n - 1].end == next <= c.memSize
      requires Sound(c, Block(ptr, ptr2, true)) && Sound(c, Block(ptr2, next, false))
      modifies this`blocks, ram
      ensures Linked() && blocks == Replace(old(blocks), k, n, [Block(ptr, ptr2, true), Block(ptr2, next, false)])
      ensures WritesHeaders(old(ram[..]), ram[..], Starts(old(blocks)) + {ptr2}) && ptr2 in Starts(blocks)
    {
      ghost var h := ram[..];
      SplitThreaded(c, h, blocks, k, n, ptr2);
      ram[ptr2] := Header(next, ptr, false);
      ram[ptr] := ram[ptr].(next := ptr2, used := true);
      if ram[ptr2].next != c.memSize {
        ram[ram[ptr2].next] := ram[ram[ptr2].next].(prev := ptr2);
      }
      blocks := Replace(blocks, k, n, [Block(ptr, ptr2, true), Block(ptr2, next, false)]);
      assert ram[..] == LinkBack(c, h[ptr2 := Header(next, ptr, false)][ptr := h[ptr].(next := ptr2, used := true)], next, ptr2);
    }

    /** The body of the scanning loop once a fitting block is found. */
    method Serve(ptr: nat, size: nat, ghost k: nat)
      requires Valid() && k < |blocks| && blocks[k].start == ptr && Fits(c, blocks[k], size)
      requires Aligned(c.align, size) && c.minSize <= size
      modifies this`lfree, this`blocks, ram
      ensures Valid() && blocks == Take(c, old(blocks), k, size)
      ensures WritesHeaders(old(ram[..]), ram[..], Starts(old(blocks)) + Starts(blocks))
    {
      ghost var h := ram[..];
      Neighbours(k);
      TakeWellFormed(c, blocks, k, size);
      LowestFreeOfTake(c, blocks, k, size);
      if ram[ptr].next - (ptr + c.header) >= size + c.header + c.minSize {
        var ptr2 := ptr + c.header + size;
        CutSound(c, blocks[k].(used := true), blocks[k].(used := true), size);
        InsertFree(ptr, ptr2, ram[ptr].next, k, 1);
      } else {
        MarkThreaded(c, h, blocks, k, true);
        MarkStarts(blocks, k, true);
        assert blocks[k] in blocks;
        ram[ptr] := ram[ptr].(used := true);
        blocks := blocks[k := blocks[k].(used := true)];
        assert ram[..] == h[ptr := h[ptr].(used := true)];
        ReplaceOne(old(blocks), k, old(blocks)[k].(used := true));
      }
      assert blocks == Take(c, old(blocks), k, size) && blocks[k].start == ptr;
      AdjustLfree(ptr, k);
    }

    /** mem_malloc, end: moves `lfree` on when the lowest free block was handed out. */
    method AdjustLfree(mem: nat, ghost k: nat)
      requires Linked() && k < |blocks| && blocks[k].start == mem && blocks[k].used
      requires if lfree == mem then forall i :: 0 <= i < k ==> blocks[i].used else lfree == LowestFree(c, blocks)
      modifies this`lfree
      ensures lfree == LowestFree(c, blocks)
    {
      if mem == lfree {
        var cur := lfree;
        ghost var i := k;
        while ram[cur].used && cur != c.memSize
          invariant k <= i <= |blocks| && cur == OffsetOf(c, blocks, i)
          invariant forall j :: 0 <= j < i ==> blocks[j].used
          invariant cur <= c.memSize
          decreases |blocks| - i
        {
          Neighbours(i);
          cur := ram[cur].next;
          i := i + 1;
        }
        if i < |blocks| { Neighbours(i); }
        FirstFreeIs(blocks, i);
        lfree := cur;
      }
    }

    /** mem_trim on the pointer of a live block.  `fails` tells whether the assertion on the next
        pointer fails; what follows is as without assertions. */
    method Trim(rmem: nat, newSizeIn: nat, ghost k: nat) returns (r: Option<nat>, fails: bool)
      requires Valid() && newSizeIn < c.sizeRange
      requires k < |blocks| && blocks[k].used && rmem == blocks[k].start + c.header
      modifies this`lfree, this`blocks, ram
      ensures Valid() && blocks == TrimLayout(c, old(blocks), k, newSizeIn)
      ensures r == if c.Admissible(newSizeIn) && rmem + c.RoundUp(newSizeIn) <= old(blocks)[k].end then Some(rmem) else None
      ensures Trims(c, old(blocks), blocks, old(blocks)[k], newSizeIn, r)
      ensures fails <==> TrimAssertionFails(c, old(blocks), k, newSizeIn)
      ensures WritesHeaders(old(ram[..]), ram[..], Starts(old(blocks)) + Starts(blocks))
    {
      TrimTrims(c, blocks, k, newSizeIn);
      var newSize := c.RoundUp(newSizeIn);
      if newSize > c.memSize || newSize < newSizeIn { return None, false; }
      var ptr := rmem - c.header;
      Neighbours(k);
      var size := ram[ptr].next - ptr - c.header;
      if newSize > size { return None, false; }
      if newSize == size { return Some(rmem), false; }
      fails := false;
      if !ram[ram[ptr].next].used {
        TrimIntoNext(ptr, newSize, k);
      } else if newSize + c.header + c.minSize <= size {
        fails := !(ram[ptr].next != c.memSize);
        TrimSplit(ptr, newSize, k);
      }
      r := Some(rmem);
    }

    /** mem_trim when the next block is free: that block grows downwards. */
    method TrimIntoNext(ptr: nat, newSize: nat, ghost k: nat)
      requires Valid() && k + 1 < |blocks| && blocks[k].used && ptr == blocks[k].start && !blocks[k + 1].used
      requires Aligned(c.align, newSize) && c.minSize <= newSize && ptr + c.header + newSize < blocks[k].end
      modifies this`lfree, this`blocks, ram
      ensures Valid() && blocks == Shrink(c, old(blocks), k, newSize)
      ensures WritesHeaders(old(ram[..]), ram[..], Starts(old(blocks)) + Starts(blocks))
    {
      Neighbours(k);
      Neighbours(k + 1);
      CutSound(c, blocks[k], blocks[k + 1], newSize);
      ShrinkWellFormed(c, blocks, k, newSize);
      ShrinkIsReplace(c, blocks, k, newSize);
      LowestFreeOfShrink(c, blocks, k, newSize);
      ghost var w := Shrink(c, blocks, k, newSize);
      var mem2 := ram[ptr].next;
      var ptr2 := ptr + c.header + newSize;
      if lfree == mem2 { lfree := ptr2; }
      assert lfree == LowestFree(c, w);
      InsertFree(ptr, ptr2, ram[mem2].next, k, 2);
      assert blocks == w;
    }

    /** mem_trim when the next block is in use but the surplus is a block of its own. */
    method TrimSplit(ptr: nat, newSize: nat, ghost k: nat)
      requires Valid() && k < |blocks| && blocks[k].used && ptr == blocks[k].start
      requires k + 1 < |blocks| ==> blocks[k + 1].used
      requires Aligned(c.align, newSize) && c.minSize <= newSize && ptr + 2 * c.header + newSize + c.minSize <= blocks[k].end
      modifies this`lfree, this`blocks, ram
      ensures Valid() && blocks == Shrink(c, old(blocks), k, newSize)
      ensures WritesHeaders(old(ram[..]), ram[..], Starts(old(blocks)) + Starts(blocks))
    {
      Neighbours(k);
      CutSound(c, blocks[k], blocks[k], newSize);
      ShrinkWellFormed(c, blocks, k, newSize);
      ShrinkIsReplace(c, blocks, k, newSize);
      LowestFreeOfShrink(c, blocks, k, newSize);
      ghost var w := Shrink(c, blocks, k, newSize);
      var ptr2 := ptr + c.header + newSize;
      if ptr2 < lfree { lfree := ptr2; }
      assert lfree == LowestFree(c, w);
      InsertFree(ptr, ptr2, ram[ptr].next, k, 1);
      assert blocks == w;
    }

    /** The headers of block `k` and of the blocks beside it. */
    lemma {:induction false} Neighbours(k: nat)
      requires Linked() && k < |blocks|
      ensures 0 <= blocks[k].start < blocks[k].end <= c.memSize && Sound(c, blocks[k])
      ensures ram[blocks[k].start] == HeaderOf(blocks, k)
      ensures if k == 0 then blocks[k].start == 0
              else blocks[k - 1].start < blocks[k - 1].end == blocks[k].start && ram[blocks[k - 1].start] == HeaderOf(blocks, k - 1)
      ensures if k + 1 == |blocks| then blocks[k].end == c.memSize
              else blocks[k].end == blocks[k + 1].start < c.memSize && ram[blocks[k].end] == HeaderOf(blocks, k + 1)
      ensures ram[c.memSize] == Header(c.memSize, c.memSize, true)
    {
      TileAt(c, blocks, 0, c.memSize, k);
      assert ram[..][blocks[k].start] == HeaderOf(blocks, k);
      if 0 < k { TileAt(c, blocks, 0, c.memSize, k - 1); assert ram[..][blocks[k - 1].start] == HeaderOf(blocks, k - 1); }
      if k + 1 < |blocks| { assert ram[..][blocks[k + 1].start] == HeaderOf(blocks, k + 1); }
    }
  }
}
