/** The heap of lwip/core/mem.c seen as a sequence of blocks. */
module HeapLayout {
  // A block is a header of `header` bytes followed by user data, and covers the bytes
  // `start .. end` of the array `ram`.  This module says which layouts are legal and what
  // allocating, freeing and trimming do to a layout; module `Heap` proves that the header
  // manipulation of mem.c has exactly these effects.

  import opened Alignment
  import opened Wrappers

  /** Compile-time constants: MEM_ALIGNMENT, SIZEOF_STRUCT_MEM, MIN_SIZE_ALIGNED,
      MEM_SIZE_ALIGNED and the number of values of `mem_size_t`. */
  datatype ConfigRecord = ConfigRecord(align: nat, header: nat, minSize: nat, memSize: nat, sizeRange: nat)
  {
    predicate Valid() {
      && 0 < align && 0 < header && 0 < minSize
      && Aligned(align, header) && Aligned(align, minSize) && Aligned(align, memSize) && Aligned(align, sizeRange)
      && header + minSize <= memSize
      && memSize + 2 * header + minSize <= sizeRange
    }

    /** LWIP_MEM_ALIGN_SIZE cast to `mem_size_t`, then raised to MIN_SIZE_ALIGNED. */
    function RoundUp(n: nat): (r: nat)
      requires Valid() && n < sizeRange
      ensures Aligned(align, r) && minSize <= r
      ensures n + align <= sizeRange ==> n <= r && (r < n + align || r == minSize)
    {
      var size := AlignUp(n, align, sizeRange);
      if size < minSize then minSize else size
    }

    /** The size check of mem_malloc and mem_trim: wide enough and not wrapped around. */
    predicate Admissible(n: nat)
      requires Valid() && n < sizeRange
    {
      RoundUp(n) <= memSize && n <= RoundUp(n)
    }
  }

  type Config = c: ConfigRecord | c.Valid() witness ConfigRecord(1, 1, 1, 2, 5)

  datatype Block = Block(start: nat, end: nat, used: bool)

  type Layout = seq<Block>

  /** Aligned and holding at least `minSize` user bytes. */
  predicate Sound(c: Config, b: Block)
  {
    Aligned(c.align, b.start) && Aligned(c.align, b.end) && b.start + c.header + c.minSize <= b.end
  }

  /** `v` covers `lo .. hi` without gap or overlap, every block sound. */
  ghost predicate Tiles(c: Config, v: Layout, lo: nat, hi: nat)
  {
    if v == [] then lo == hi
    else v[0].start == lo && Sound(c, v[0]) && Tiles(c, v[1..], v[0].end, hi)
  }

  /** No two neighbours are both free. */
  ghost predicate Coalesced(v: Layout) {
    forall i, j :: 0 <= i && j == i + 1 < |v| ==> v[i].used || v[j].used
  }

  ghost predicate WellFormed(c: Config, v: Layout)
  {
    v != [] && Tiles(c, v, 0, c.memSize) && Coalesced(v)
  }

  ghost function Starts(v: Layout): set<nat> {
    set b | b in v :: b.start
  }

  ghost function Live(v: Layout): set<Block> {
    set b | b in v && b.used
  }

  /** What tiling says of the block at position `i`. */
  lemma {:induction false} TileAt(c: Config, v: Layout, lo: nat, hi: nat, i: nat)
    requires Tiles(c, v, lo, hi) && i < |v|
    ensures Sound(c, v[i]) && lo <= v[i].start && v[i].end <= hi
    ensures v[i].start == if i == 0 then lo else v[i - 1].end
    ensures v[i].end == if i == |v| - 1 then hi else v[i + 1].start
    decreases |v|
  {
    if 1 < |v| {
      TileAt(c, v[1..], v[0].end, hi, if 0 < i then i - 1 else 0);
    }
  }

  /** Blocks come at strictly increasing offsets. */
  lemma {:induction false} AllOrdered(c: Config, v: Layout, lo: nat, hi: nat)
    requires Tiles(c, v, lo, hi)
    ensures forall i :: 0 <= i < |v| ==> lo <= v[i].start < v[i].end <= hi
    ensures forall i, j :: 0 <= i < j < |v| ==> v[i].end <= v[j].start
    ensures v == [] ==> lo == hi
    ensures lo <= hi
    decreases |v|
  {
    if v != [] {
      AllOrdered(c, v[1..], v[0].end, hi);
      forall i | 0 <= i < |v| ensures lo <= v[i].start < v[i].end <= hi && (0 < i ==> v[0].end <= v[i].start) {
        if 0 < i { assert v[i] == v[1..][i - 1]; }
      }
      forall i, j | 0 <= i < j < |v| ensures v[i].end <= v[j].start {
        if 0 < i { assert v[i] == v[1..][i - 1] && v[j] == v[1..][j - 1]; }
      }
    }
  }

  lemma {:induction false} OnlyBlockAt(c: Config, v: Layout, lo: nat, hi: nat, k: nat)
    requires Tiles(c, v, lo, hi) && k < |v|
    ensures forall i :: 0 <= i < |v| && i != k ==> v[i].start != v[k].start
  {
    AllOrdered(c, v, lo, hi);
  }

  lemma {:induction false} TilesConcat(c: Config, v: Layout, w: Layout, lo: nat, mid: nat, hi: nat)
    requires Tiles(c, v, lo, mid) && Tiles(c, w, mid, hi)
    ensures Tiles(c, v + w, lo, hi)
    decreases |v|
  {
    if v == [] {
      assert v + w == w;
    } else {
      TilesConcat(c, v[1..], w, v[0].end, mid, hi);
      assert (v + w)[1..] == v[1..] + w;
    }
  }

  lemma {:induction false} TilesSplit(c: Config, v: Layout, lo: nat, hi: nat, k: nat)
    requires Tiles(c, v, lo, hi) && k <= |v|
    ensures var mid := if k == |v| then hi else v[k].start;
            Tiles(c, v[..k], lo, mid) && Tiles(c, v[k..], mid, hi)
    decreases |v|
  {
    if k == 0 {
      assert v[..k] == [] && v[k..] == v;
    } else {
      TilesSplit(c, v[1..], v[0].end, hi, k - 1);
      assert v[..k][1..] == v[1..][..k - 1] && v[k..] == v[1..][k - 1..];
    }
  }

  /** Replaces the `n` blocks from position `k` on by `w`. */
  function Replace(v: Layout, k: nat, n: nat, w: Layout): Layout
    requires k + n <= |v|
  {
    v[..k] + w + v[k + n..]
  }

  lemma {:induction false} ReplaceOne(v: Layout, k: nat, b: Block)
    requires k < |v|
    ensures v[k := b] == Replace(v, k, 1, [b])
  {
  }

  lemma {:induction false} ReplaceTiles(c: Config, v: Layout, lo: nat, hi: nat, k: nat, n: nat, w: Layout)
    requires Tiles(c, v, lo, hi) && 0 < n && k + n <= |v|
    requires Tiles(c, w, v[k].start, v[k + n - 1].end)
    ensures Tiles(c, Replace(v, k, n, w), lo, hi)
  {
    TilesSplit(c, v, lo, hi, k);
    TilesSplit(c, v, lo, hi, k + n);
    TileAt(c, v, lo, hi, k + n - 1);
    TilesConcat(c, w, v[k + n..], v[k].start, v[k + n - 1].end, hi);
    TilesConcat(c, v[..k], w + v[k + n..], lo, v[k].start, hi);
    assert Replace(v, k, n, w) == v[..k] + (w + v[k + n..]);
  }

  lemma {:induction false} ReplaceLive(c: Config, v: Layout, lo: nat, hi: nat, k: nat, n: nat, w: Layout)
    requires Tiles(c, v, lo, hi) && k + n <= |v|
    ensures Live(Replace(v, k, n, w)) == Live(v) - Live(v[k..k + n]) + Live(w)
  {
    AllOrdered(c, v, lo, hi);
    var r := Replace(v, k, n, w);
    forall b ensures b in Live(r) <==> b in Live(v) - Live(v[k..k + n]) + Live(w) {
      assert v == v[..k] + v[k..k + n] + v[k + n..];
      if b in v[..k] || b in v[k + n..] {
        assert b !in v[k..k + n];
      }
    }
  }

  // ---- allocation -------------------------------------------------------------

  predicate Fits(c: Config, b: Block, size: nat) {
    !b.used && b.start + c.header + size <= b.end
  }

  /** The lowest free block that can hold `size` user bytes. */
  function FirstFit(c: Config, v: Layout, size: nat, from: nat): (k: nat)
    requires from <= |v|
    ensures from <= k <= |v|
    ensures forall i :: from <= i < k ==> !Fits(c, v[i], size)
    ensures k < |v| ==> Fits(c, v[k], size)
    decreases |v| - from
  {
    if from == |v| || Fits(c, v[from], size) then from else FirstFit(c, v, size, from + 1)
  }

  lemma {:induction false} FirstFitIs(c: Config, v: Layout, size: nat, k: nat)
    requires k <= |v| && (forall i :: 0 <= i < k ==> !Fits(c, v[i], size)) && (k < |v| ==> Fits(c, v[k], size))
    ensures FirstFit(c, v, size, 0) == k
    ensures k == |v| <==> forall b :: b in v ==> !Fits(c, b, size)
  {
    if k < |v| { assert v[k] in v; }
  }

  /** From an offset closer to the end than `size` on, nothing fits. */
  lemma {:induction false} TooHigh(c: Config, v: Layout, k: nat, size: nat)
    requires Tiles(c, v, 0, c.memSize) && k <= |v| && c.memSize <= OffsetOf(c, v, k) + size
    requires forall i :: 0 <= i < k ==> !Fits(c, v[i], size)
    ensures FirstFit(c, v, size, 0) == |v|
    ensures forall b :: b in v ==> !Fits(c, b, size)
  {
    AllOrdered(c, v, 0, c.memSize);
    forall i | 0 <= i < |v| ensures !Fits(c, v[i], size) {}
    FirstFitIs(c, v, size, |v|);
  }

  /** The block handed out when `b` serves a request of `size` bytes: the rest is
      split off when it can hold a header and `minSize` bytes. */
  function Granted(c: Config, b: Block, size: nat): Block {
    if b.start + 2 * c.header + size + c.minSize <= b.end
    then Block(b.start, b.start + c.header + size, true) else b.(used := true)
  }

  function Take(c: Config, v: Layout, k: nat, size: nat): Layout
    requires k < |v|
  {
    var g := Granted(c, v[k], size);
    Replace(v, k, 1, if g.end == v[k].end then [g] else [g, Block(g.end, v[k].end, false)])
  }

  // ---- release ----------------------------------------------------------------

  function MergeForward(v: Layout, k: nat): Layout
    requires k < |v|
  {
    if k + 1 < |v| && !v[k + 1].used
    then Replace(v, k, 2, [Block(v[k].start, v[k + 1].end, false)]) else v
  }

  function MergeBackward(v: Layout, k: nat): Layout
    requires k < |v|
  {
    if 0 < k && !v[k - 1].used
    then Replace(v, k - 1, 2, [Block(v[k - 1].start, v[k].end, false)]) else v
  }

  function Release(v: Layout, k: nat): Layout
    requires k < |v|
  {
    MergeBackward(MergeForward(v[k := v[k].(used := false)], k), k)
  }

  lemma {:induction false} MarkStarts(v: Layout, k: nat, used: bool)
    requires k < |v|
    ensures Starts(v[k := v[k].(used := used)]) == Starts(v)
  {
    var w := v[k := v[k].(used := used)];
    forall b | b in v ensures b.start in Starts(w) {
      var i :| 0 <= i < |v| && v[i] == b;
      assert w[i] in w;
    }
    forall b | b in w ensures b.start in Starts(v) {
      var i :| 0 <= i < |w| && w[i] == b;
      assert v[i] in v;
    }
  }

  lemma {:induction false} MergeStarts(v: Layout, k: nat)
    requires k < |v|
    ensures Starts(MergeForward(v, k)) <= Starts(v)
  {
    var w := MergeForward(v, k);
    if w != v {
      forall b | b in w ensures b.start in Starts(v) {
        if b !in v { assert b.start == v[k].start && v[k] in v; }
      }
    }
  }

  // ---- trim -------------------------------------------------------------------

  /** The block that remains when `v[k]` is trimmed to `size` bytes: its surplus goes
      to the free block behind it, or becomes a block if it is big enough. */
  function Trimmed(c: Config, v: Layout, k: nat, size: nat): Block
    requires k < |v|
  {
    if (k + 1 < |v| && !v[k + 1].used) || v[k].start + 2 * c.header + size + c.minSize <= v[k].end
    then v[k].(end := v[k].start + c.header + size) else v[k]
  }

  function Shrink(c: Config, v: Layout, k: nat, size: nat): Layout
    requires k < |v|
  {
    var t := Trimmed(c, v, k, size);
    if t.end == v[k].end then v
    else if k + 1 < |v| && !v[k + 1].used
    then Replace(v, k, 2, [t, Block(t.end, v[k + 1].end, false)])
    else Replace(v, k, 1, [t, Block(t.end, v[k].end, false)])
  }

  // ---- the lowest free block ----------------------------------------------------

  function FirstFree(v: Layout): (k: nat)
    ensures k <= |v|
    ensures forall i :: 0 <= i < k ==> v[i].used
    ensures k < |v| ==> !v[k].used
  {
    if v == [] || !v[0].used then 0
    else
      var k := FirstFree(v[1..]);
      assert forall i :: 0 < i < k + 1 ==> v[i] == v[1..][i - 1];
      k + 1
  }

  /** Offset of block `k`; the end marker stands behind the last block. */
  function OffsetOf(c: Config, v: Layout, k: nat): nat
    requires k <= |v|
  {
    if k < |v| then v[k].start else c.memSize
  }

  /** What `lfree` points to: the lowest free block, or the end marker. */
  function LowestFree(c: Config, v: Layout): nat {
    OffsetOf(c, v, FirstFree(v))
  }

  lemma {:induction false} FirstFreeIs(v: Layout, k: nat)
    requires k <= |v| && (forall i :: 0 <= i < k ==> v[i].used) && (k < |v| ==> !v[k].used)
    ensures FirstFree(v) == k
  {
  }

  /** Marking block `k` free lowers the lowest free offset if it lies below. */
  lemma {:induction false} LowestFreeOfMark(c: Config, v: Layout, k: nat)
    requires Tiles(c, v, 0, c.memSize) && k < |v| && v[k].used
    ensures LowestFree(c, v[k := v[k].(used := false)])
         == if v[k].start < LowestFree(c, v) then v[k].start else LowestFree(c, v)
  {
    AllOrdered(c, v, 0, c.memSize);
    FirstFreeIs(v[k := v[k].(used := false)], if k < FirstFree(v) then k else FirstFree(v));
  }

  /** Handing out block `k` moves the lowest free offset only if it was the lowest. */
  lemma {:induction false} LowestFreeOfTake(c: Config, v: Layout, k: nat, size: nat)
    requires Tiles(c, v, 0, c.memSize) && k < |v| && Fits(c, v[k], size)
    ensures var r := Take(c, v, k, size);
            if LowestFree(c, v) == v[k].start then forall i :: 0 <= i < k ==> r[i].used
            else LowestFree(c, r) == LowestFree(c, v)
  {
    AllOrdered(c, v, 0, c.memSize);
    var r := Take(c, v, k, size);
    assert forall i :: 0 <= i < k ==> r[i] == v[i];
    if FirstFree(v) < k { FirstFreeIs(r, FirstFree(v)); }
  }

  /** The two ways in which mem_trim cuts a block, spelled out. */
  lemma {:induction false} ShrinkIsReplace(c: Config, v: Layout, k: nat, size: nat)
    requires k < |v| && v[k].used && v[k].start + c.header + size <= v[k].end
    ensures var cut := v[k].start + c.header + size;
            && (k + 1 < |v| && !v[k + 1].used && cut != v[k].end ==>
                  Shrink(c, v, k, size) == Replace(v, k, 2, [Block(v[k].start, cut, true), Block(cut, v[k + 1].end, false)]))
            && (k + 1 == |v| || v[k + 1].used ==>
                  Shrink(c, v, k, size) == if cut + c.header + c.minSize <= v[k].end
                                           then Replace(v, k, 1, [Block(v[k].start, cut, true), Block(cut, v[k].end, false)]) else v)
  {
  }

  lemma {:induction false} LowestFreeOfShrink(c: Config, v: Layout, k: nat, size: nat)
    requires Tiles(c, v, 0, c.memSize) && k < |v| && v[k].used && Trimmed(c, v, k, size).end != v[k].end
    requires v[k].start + c.header + size <= v[k].end
    ensures LowestFree(c, Shrink(c, v, k, size))
         == var cut := v[k].start + c.header + size;
            if k + 1 < |v| && !v[k + 1].used then (if LowestFree(c, v) == v[k].end then cut else LowestFree(c, v))
            else if cut < LowestFree(c, v) then cut else LowestFree(c, v)
  {
    AllOrdered(c, v, 0, c.memSize);
    TileAt(c, v, 0, c.memSize, k);
    var r := Shrink(c, v, k, size);
    assert forall i :: 0 <= i < k ==> r[i] == v[i];
    FirstFreeIs(r, if FirstFree(v) < k then FirstFree(v) else k + 1);
  }

  /** Joining two free neighbours leaves the lowest free offset where it is. */
  lemma {:induction false} LowestFreeOfJoin(c: Config, v: Layout, k: nat)
    requires Tiles(c, v, 0, c.memSize) && k + 1 < |v| && !v[k].used && !v[k + 1].used
    ensures LowestFree(c, Replace(v, k, 2, [Block(v[k].start, v[k + 1].end, false)])) == LowestFree(c, v)
    ensures LowestFree(c, v) <= v[k].start < v[k + 1].start
    ensures FirstFree(v) == k ==> LowestFree(c, v) == v[k].start
  {
    AllOrdered(c, v, 0, c.memSize);
    var r := Replace(v, k, 2, [Block(v[k].start, v[k + 1].end, false)]);
    assert forall i :: 0 <= i < k ==> r[i] == v[i];
    assert r[k] == Block(v[k].start, v[k + 1].end, false);
    FirstFreeIs(r, FirstFree(v));
  }

  // ---- preservation -----------------------------------------------------------

  /** Replacing the blocks from `k` on by blocks that tile the same bytes. */
  lemma {:induction false} ReplaceKeeps(c: Config, v: Layout, k: nat, n: nat, w: Layout)
    requires WellFormed(c, v) && 0 < n && k + n <= |v| && w != []
    requires Tiles(c, w, v[k].start, v[k + n - 1].end) && Coalesced(w)
    requires 0 < k ==> v[k - 1].used || w[0].used
    requires k + n < |v| ==> w[|w| - 1].used || v[k + n].used
    ensures WellFormed(c, Replace(v, k, n, w))
    ensures Live(Replace(v, k, n, w)) == Live(v) - Live(v[k..k + n]) + Live(w)
  {
    ReplaceTiles(c, v, 0, c.memSize, k, n, w);
    ReplaceLive(c, v, 0, c.memSize, k, n, w);
    CoalescedConcat(v[..k], w);
    CoalescedConcat(v[..k] + w, v[k + n..]);
  }

  lemma {:induction false} CoalescedConcat(v: Layout, w: Layout)
    requires Coalesced(v) && Coalesced(w)
    requires v != [] && w != [] ==> v[|v| - 1].used || w[0].used
    ensures Coalesced(v + w)
  {
  }

  lemma {:induction false} TilesPair(c: Config, a: Block, b: Block)
    requires Sound(c, a) && Sound(c, b) && a.end == b.start
    ensures Tiles(c, [a, b], a.start, b.end)
  {
    assert [a, b][1..] == [b] && [b][1..] == [];
  }

  lemma {:induction false} TilesOne(c: Config, a: Block)
    requires Sound(c, a)
    ensures Tiles(c, [a], a.start, a.end)
  {
    assert [a][1..] == [];
  }

  /** A header and `size` bytes behind an aligned start end at an aligned offset. */
  lemma {:induction false} CutAligned(c: Config, start: nat, size: nat)
    requires Aligned(c.align, start) && Aligned(c.align, size)
    ensures Aligned(c.align, start + c.header + size)
  {
    AlignedSum(c.align, start, c.header);
    AlignedSum(c.align, start + c.header, size);
  }

  lemma {:induction false} TakeWellFormed(c: Config, v: Layout, k: nat, size: nat)
    requires WellFormed(c, v) && k < |v| && Fits(c, v[k], size)
    requires Aligned(c.align, size) && c.minSize <= size
    ensures WellFormed(c, Take(c, v, k, size))
    ensures Granted(c, v[k], size) !in v
    ensures Live(Take(c, v, k, size)) == Live(v) + {Granted(c, v[k], size)}
  {
    var g := Granted(c, v[k], size);
    var rest := Block(g.end, v[k].end, false);
    TileAt(c, v, 0, c.memSize, k);
    CutAligned(c, v[k].start, size);
    assert v[k..k + 1] == [v[k]] && Live([v[k]]) == {};
    if g.end == v[k].end {
      TilesOne(c, g);
      assert Live([g]) == {g};
      ReplaceKeeps(c, v, k, 1, [g]);
    } else {
      TilesPair(c, g, rest);
      assert Live([g, rest]) == {g};
      ReplaceKeeps(c, v, k, 1, [g, rest]);
    }
    AllOrdered(c, v, 0, c.memSize);
  }

  lemma {:induction false} FreedLive(v: Layout, k: nat, m: nat, n: nat)
    requires m <= k && 1 <= n && k + n <= |v| && v[k].used
    requires forall i :: k - m <= i < k + n && i != k ==> !v[i].used
    ensures Live(v[k - m..k - m + m + n]) == {v[k]}
  {
    var freed := v[k - m..k - m + m + n];
    assert freed[m] == v[k];
    forall b | b in freed && b.used ensures b == v[k] {
      var i :| 0 <= i < |freed| && freed[i] == b;
      assert freed[i] == v[k - m + i];
    }
  }

  lemma {:induction false} ReleaseWellFormed(c: Config, v: Layout, k: nat)
    requires WellFormed(c, v) && k < |v| && v[k].used
    ensures WellFormed(c, Release(v, k))
    ensures Live(Release(v, k)) == Live(v) - {v[k]}
  {
    var n := if k + 1 < |v| && !v[k + 1].used then 2 else 1;
    var m := if 0 < k && !v[k - 1].used then 1 else 0;
    var hole := Block(v[k - m].start, v[k + n - 1].end, false);
    TileAt(c, v, 0, c.memSize, k);
    TileAt(c, v, 0, c.memSize, k - m);
    TileAt(c, v, 0, c.memSize, k + n - 1);
    ReleaseIsReplace(v, k);
    FreedLive(v, k, m, n);
    assert Live([hole]) == {};
    TilesOne(c, hole);
    ReplaceKeeps(c, v, k - m, m + n, [hole]);
  }

  /** Marking a block free and plugging the holes on both sides puts one free block
      in place of up to three. */
  lemma {:induction false} ReleaseIsReplace(v: Layout, k: nat)
    requires k < |v|
    ensures var n := if k + 1 < |v| && !v[k + 1].used then 2 else 1;
            var m := if 0 < k && !v[k - 1].used then 1 else 0;
            Release(v, k) == Replace(v, k - m, m + n, [Block(v[k - m].start, v[k + n - 1].end, false)])
  {
    var u := v[k := v[k].(used := false)];
    var f := MergeForward(u, k);
    assert f[..k] == v[..k];
  }

  lemma {:induction false} ShrinkWellFormed(c: Config, v: Layout, k: nat, size: nat)
    requires WellFormed(c, v) && k < |v| && v[k].used
    requires Aligned(c.align, size) && c.minSize <= size && v[k].start + c.header + size <= v[k].end
    ensures WellFormed(c, Shrink(c, v, k, size))
    ensures Live(Shrink(c, v, k, size)) == Live(v) - {v[k]} + {Trimmed(c, v, k, size)}
  {
    var t := Trimmed(c, v, k, size);
    if t.end != v[k].end {
      var n := if k + 1 < |v| && !v[k + 1].used then 2 else 1;
      CutWellFormed(c, v, k, n, size);
      assert Shrink(c, v, k, size) == Replace(v, k, n, [t, Block(t.end, v[k + n - 1].end, false)]);
    } else {
      assert v[k] in Live(v);
    }
  }

  /** Cutting `b` after `size` bytes and giving the rest to a block that ends with `last`. */
  lemma {:induction false} CutSound(c: Config, b: Block, last: Block, size: nat)
    requires Sound(c, b) && Sound(c, last) && Aligned(c.align, size) && c.minSize <= size
    requires if b == last then b.start + 2 * c.header + size + c.minSize <= b.end
             else b.end == last.start && b.start + c.header + size <= b.end
    ensures var t := b.start + c.header + size;
            Sound(c, Block(b.start, t, true)) && Sound(c, Block(t, last.end, false))
  {
    CutAligned(c, b.start, size);
  }

  /** Ending the used block `k` after `size` bytes, its surplus joined to what follows. */
  lemma {:induction false} CutWellFormed(c: Config, v: Layout, k: nat, n: nat, size: nat)
    requires WellFormed(c, v) && k + n <= |v| && 1 <= n <= 2 && v[k].used
    requires n == 2 ==> !v[k + 1].used
    requires n == 1 && k + 1 < |v| ==> v[k + 1].used
    requires Aligned(c.align, size) && c.minSize <= size
    requires v[k].start + c.header + size <= v[k].end
    requires n == 2 || v[k].start + 2 * c.header + size + c.minSize <= v[k].end
    ensures var t := v[k].(end := v[k].start + c.header + size);
            var r := Replace(v, k, n, [t, Block(t.end, v[k + n - 1].end, false)]);
            WellFormed(c, r) && Live(r) == Live(v) - {v[k]} + {t}
  {
    var t := v[k].(end := v[k].start + c.header + size);
    var rest := Block(t.end, v[k + n - 1].end, false);
    TileAt(c, v, 0, c.memSize, k);
    TileAt(c, v, 0, c.memSize, k + n - 1);
    CutSound(c, v[k], v[k + n - 1], size);
    TilesPair(c, t, rest);
    var gone := v[k..k + n];
    assert gone[0] == v[k] && (n == 2 ==> gone[1] == v[k + 1]);
    assert Live(gone) == {v[k]} && Live([t, rest]) == {t};
    ReplaceKeeps(c, v, k, n, [t, rest]);
  }

  // ---- the layout is a function of the live blocks ------------------------------

  /** Two coalesced tilings of the same range with the same live blocks are equal:
      the heap keeps no memory of the order of past operations. */
  lemma {:induction false} LiveBlocksDetermineLayout(c: Config, v: Layout, w: Layout, lo: nat, hi: nat)
    requires Tiles(c, v, lo, hi) && Tiles(c, w, lo, hi)
    requires Coalesced(v) && Coalesced(w) && Live(v) == Live(w)
    ensures v == w
    decreases |v|
  {
    AllOrdered(c, v, lo, hi);
    AllOrdered(c, w, lo, hi);
    if v != [] && w != [] {
      FirstBlockDetermined(c, v, w, lo, hi);
      assert v == [v[0]] + v[1..] && w == [w[0]] + w[1..];
      TailLive(c, v, lo, hi);
      TailLive(c, w, lo, hi);
      LiveBlocksDetermineLayout(c, v[1..], w[1..], v[0].end, hi);
    }
  }

  lemma {:induction false} TailLive(c: Config, v: Layout, lo: nat, hi: nat)
    requires Tiles(c, v, lo, hi) && v != []
    ensures Live(v[1..]) == Live(v) - {v[0]}
  {
    AllOrdered(c, v, lo, hi);
    assert v == [v[0]] + v[1..];
  }

  lemma {:induction false} FirstBlockDetermined(c: Config, v: Layout, w: Layout, lo: nat, hi: nat)
    requires Tiles(c, v, lo, hi) && Tiles(c, w, lo, hi) && v != [] && w != []
    requires Coalesced(v) && Coalesced(w) && Live(v) == Live(w)
    ensures v[0] == w[0]
  {
    AllOrdered(c, v, lo, hi);
    AllOrdered(c, w, lo, hi);
    if v[0].used {
      LiveFront(c, v, w, lo, hi);
    } else if w[0].used {
      LiveFront(c, w, v, lo, hi);
    } else {
      FirstLiveStart(c, v, w, lo, hi);
      FirstLiveStart(c, w, v, lo, hi);
    }
  }

  lemma {:induction false} LiveFront(c: Config, v: Layout, w: Layout, lo: nat, hi: nat)
    requires Tiles(c, v, lo, hi) && Tiles(c, w, lo, hi) && v != [] && w != []
    requires Live(v) == Live(w) && v[0].used
    ensures v[0] == w[0]
  {
    AllOrdered(c, w, lo, hi);
    assert v[0] in Live(w);
  }

  /** The free block at the front of `v` reaches no further than the one of `w`. */
  lemma {:induction false} FirstLiveStart(c: Config, v: Layout, w: Layout, lo: nat, hi: nat)
    requires Tiles(c, v, lo, hi) && Tiles(c, w, lo, hi) && v != [] && w != []
    requires Coalesced(v) && Live(v) == Live(w) && !v[0].used && !w[0].used
    ensures w[0].end <= v[0].end
  {
    AllOrdered(c, w, lo, hi);
    TileAt(c, v, lo, hi, 0);
    if 1 < |v| {
      assert v[0].end == v[1].start && v[1].used;
      assert v[1] in Live(w);
      var j :| 0 <= j < |w| && w[j] == v[1];
      assert 0 < j;
    }
  }

  /** Freeing the block an allocation just returned restores the layout. */
  lemma {:induction false} ReleaseUndoesTake(c: Config, v: Layout, k: nat, size: nat)
    requires WellFormed(c, v) && k < |v| && Fits(c, v[k], size)
    requires Aligned(c.align, size) && c.minSize <= size
    ensures Release(Take(c, v, k, size), k) == v
  {
    TakeWellFormed(c, v, k, size);
    var w := Take(c, v, k, size);
    assert w[k] == Granted(c, v[k], size);
    ReleaseWellFormed(c, w, k);
    LiveBlocksDetermineLayout(c, Release(w, k), v, 0, c.memSize);
  }

  /** Freeing two blocks in either order gives the same layout. */
  lemma {:induction false} ReleasesCommute(c: Config, v: Layout, i: nat, j: nat, i': nat, j': nat)
    requires WellFormed(c, v) && i < |v| && j < |v| && i != j && v[i].used && v[j].used
    requires i' < |Release(v, j)| && Release(v, j)[i'] == v[i]
    requires j' < |Release(v, i)| && Release(v, i)[j'] == v[j]
    ensures Release(Release(v, j), i') == Release(Release(v, i), j')
  {
    ReleaseWellFormed(c, v, i);
    ReleaseWellFormed(c, v, j);
    ReleaseWellFormed(c, Release(v, j), i');
    ReleaseWellFormed(c, Release(v, i), j');
    LiveBlocksDetermineLayout(c, Release(Release(v, j), i'), Release(Release(v, i), j'), 0, c.memSize);
  }

  /** Trimming an allocation right after it was made equals having asked for less,
      provided the lowest fitting block for both sizes is the same. */
  lemma {:induction false} ShrinkAfterTake(c: Config, v: Layout, k: nat, size: nat, less: nat)
    requires WellFormed(c, v) && k < |v| && Fits(c, v[k], size)
    requires Aligned(c.align, size) && Aligned(c.align, less) && c.minSize <= less <= size
    ensures Shrink(c, Take(c, v, k, size), k, less) == Take(c, v, k, less)
  {
    TakeWellFormed(c, v, k, size);
    TakeWellFormed(c, v, k, less);
    var w := Take(c, v, k, size);
    assert w[k] == Granted(c, v[k], size);
    ShrinkWellFormed(c, w, k, less);
    assert k + 1 < |w| ==> (!w[k + 1].used <==> w[k].end != v[k].end);
    assert Trimmed(c, w, k, less) == Granted(c, v[k], less);
    LiveBlocksDetermineLayout(c, Shrink(c, w, k, less), Take(c, v, k, less), 0, c.memSize);
  }

  // ---- runs ---------------------------------------------------------------------

  /** A call of the allocator; `k` is the position of the block whose pointer is passed. */
  datatype Call = MallocCall(n: nat) | FreeCall(k: nat) | TrimCall(k: nat, n: nat)

  predicate CallOk(c: Config, v: Layout, call: Call) {
    match call
    case MallocCall(n) => n < c.sizeRange
    case FreeCall(k) => k < |v| && v[k].used
    case TrimCall(k, n) => k < |v| && v[k].used && n < c.sizeRange
  }

  function InitialLayout(c: Config): Layout {
    [Block(0, c.memSize, false)]
  }

  function MallocLayout(c: Config, v: Layout, n: nat): Layout
    requires n < c.sizeRange
  {
    var k := FirstFit(c, v, c.RoundUp(n), 0);
    if 0 < n && c.Admissible(n) && k < |v| then Take(c, v, k, c.RoundUp(n)) else v
  }

  function TrimLayout(c: Config, v: Layout, k: nat, n: nat): Layout
    requires k < |v| && n < c.sizeRange
  {
    if c.Admissible(n) && v[k].start + c.header + c.RoundUp(n) <= v[k].end then Shrink(c, v, k, c.RoundUp(n)) else v
  }

  function CallLayout(c: Config, v: Layout, call: Call): Layout
    requires CallOk(c, v, call)
  {
    match call
    case MallocCall(n) => MallocLayout(c, v, n)
    case FreeCall(k) => Release(v, k)
    case TrimCall(k, n) => TrimLayout(c, v, k, n)
  }

  /** `calls` can be made one after the other from `v` and lead to `w`. */
  predicate Run(c: Config, v: Layout, calls: seq<Call>, w: Layout)
    decreases |calls|
  {
    if calls == [] then v == w
    else CallOk(c, v, calls[0]) && Run(c, CallLayout(c, v, calls[0]), calls[1..], w)
  }

  lemma {:induction false} CallWellFormed(c: Config, v: Layout, call: Call)
    requires WellFormed(c, v) && CallOk(c, v, call)
    ensures WellFormed(c, CallLayout(c, v, call))
  {
    match call
    case MallocCall(n) =>
      var k := FirstFit(c, v, c.RoundUp(n), 0);
      if 0 < n && c.Admissible(n) && k < |v| { TakeWellFormed(c, v, k, c.RoundUp(n)); }
    case FreeCall(k) => ReleaseWellFormed(c, v, k);
    case TrimCall(k, n) =>
      if c.Admissible(n) && v[k].start + c.header + c.RoundUp(n) <= v[k].end {
        ShrinkWellFormed(c, v, k, c.RoundUp(n));
      }
  }

  /** Every run from mem_init keeps the layout legal; once everything is freed again
      the heap is one free block, whatever happened before. */
  lemma {:induction false} RunsStayWellFormed(c: Config, v: Layout, calls: seq<Call>, w: Layout)
    requires WellFormed(c, v) && Run(c, v, calls, w)
    ensures WellFormed(c, w)
    ensures Live(w) == {} ==> w == InitialLayout(c)
    decreases |calls|
  {
    if calls == [] {
      if Live(w) == {} {
        TilesOne(c, Block(0, c.memSize, false));
        assert Live(InitialLayout(c)) == {};
        LiveBlocksDetermineLayout(c, w, InitialLayout(c), 0, c.memSize);
      }
    } else {
      CallWellFormed(c, v, calls[0]);
      RunsStayWellFormed(c, CallLayout(c, v, calls[0]), calls[1..], w);
    }
  }

  lemma {:induction false} InitialWellFormed(c: Config)
    ensures WellFormed(c, InitialLayout(c))
  {
    TilesOne(c, Block(0, c.memSize, false));
  }

  /** mem_trim asserts that a block it splits is not the last one of the heap.  This fails exactly
      for the last block, when the surplus is a block of its own. */
  predicate TrimAssertionFails(c: Config, v: Layout, k: nat, n: nat)
    requires k < |v| && n < c.sizeRange
  {
    c.Admissible(n) && k + 1 == |v| && v[k].start + 2 * c.header + c.RoundUp(n) + c.minSize <= v[k].end
  }

  /** It does so after a single allocation that takes the whole heap; what follows it is
      right for the last block, too. */
  lemma {:induction false} TrimOfLastBlock(c: Config)
    requires 2 * c.header + 2 * c.minSize <= c.memSize
    ensures var whole := [Block(0, c.memSize, true)];
            && Run(c, InitialLayout(c), [MallocCall(c.memSize - c.header)], whole)
            && TrimAssertionFails(c, whole, 0, 1) && WellFormed(c, TrimLayout(c, whole, 0, 1))
  {
    var n, v, whole := c.memSize - c.header, InitialLayout(c), [Block(0, c.memSize, true)];
    AlignedDifference(c.align, c.memSize, c.header);
    RoundToIsLeast(n, c.align, n);
    RoundToIsLeast(1, c.align, c.minSize);
    InitialWellFormed(c);
    FirstFitIs(c, v, n, 0);
    assert MallocLayout(c, v, n) == whole;
    CallWellFormed(c, v, MallocCall(n));
    CallWellFormed(c, whole, TrimCall(0, 1));
    assert Run(c, whole, [], whole) && [MallocCall(n)][1..] == [];
  }

  // ---- what the callers of mem_malloc and mem_trim get ------------------------------------------

  /** A size passes the checks exactly if it is not larger than the heap, though it is compared after
      a cast that may wrap around. */
  lemma {:induction false} AdmissibleIs(c: Config, n: nat)
    requires n < c.sizeRange
    ensures c.Admissible(n) <==> n <= c.memSize
  {
    if n <= c.memSize {
      RoundToIsLeast(n, c.align, c.memSize);
      RoundToIsLeast(c.minSize, c.align, c.minSize);
    }
  }

  /** mem_malloc(n) answers `r` and makes `w` of `v`.  A pointer is to a new block in use, in free
      space, that touches no other and holds `n` bytes and not enough surplus for a block; no lower
      free block holds `n` bytes.  NULL changes nothing, and nothing free would do. */
  ghost predicate Allocates(c: Config, v: Layout, w: Layout, n: nat, r: Option<nat>)
    requires n < c.sizeRange
  {
    match r
    case Some(p) => exists b: Block :: p == b.start + c.header && Serves(c, v, b, n) && Live(w) == Live(v) + {b}
    case None => w == v && (0 < n <= c.memSize ==> forall f: Block :: f in v && !f.used ==> f.end < f.start + c.header + c.RoundUp(n))
  }

  /** Block `b` is what a request for `n` bytes is owed. */
  ghost predicate Serves(c: Config, v: Layout, b: Block, n: nat)
    requires n < c.sizeRange
  {
    && b.used && b !in Live(v) && Aligned(c.align, b.start + c.header)
    && b.start + c.header + n <= b.end && b.start + c.header + c.RoundUp(n) <= b.end < b.start + 2 * c.header + c.RoundUp(n) + c.minSize
    && (exists f: Block :: f in v && !f.used && f.start == b.start && b.end <= f.end)
    && (forall a: Block :: a in Live(v) ==> a.end <= b.start || b.end <= a.start)
    && (forall f: Block :: f in v && !f.used && f.start < b.start ==> f.end < f.start + c.header + c.RoundUp(n))
  }

  /** What mem_malloc returns. */
  function MallocResult(c: Config, v: Layout, n: nat): Option<nat>
    requires n < c.sizeRange
  {
    var k := FirstFit(c, v, c.RoundUp(n), 0);
    if 0 < n && c.Admissible(n) && k < |v| then Some(v[k].start + c.header) else None
  }

  lemma {:induction false} MallocAllocates(c: Config, v: Layout, n: nat)
    requires WellFormed(c, v) && n < c.sizeRange
    ensures Allocates(c, v, MallocLayout(c, v, n), n, MallocResult(c, v, n))
    ensures MallocResult(c, v, n) == None <==> n == 0 || c.memSize < n || forall f: Block :: f in v ==> !Fits(c, f, c.RoundUp(n))
  {
    AdmissibleIs(c, n);
    var size := c.RoundUp(n);
    var k := FirstFit(c, v, size, 0);
    FirstFitIs(c, v, size, k);
    if 0 < n && c.Admissible(n) && k < |v| {
      TakeWellFormed(c, v, k, size);
      TakeServes(c, v, k, n);
    } else if 0 < n && c.Admissible(n) {
      forall f: Block | f in v && !f.used ensures f.end < f.start + c.header + size { assert !Fits(c, f, size); }
    }
  }

  /** What begins where free block `k` does and ends no later touches no block in use. */
  lemma {:induction false} ClearOfLive(c: Config, v: Layout, k: nat, b: Block)
    requires WellFormed(c, v) && k < |v| && !v[k].used && b.start == v[k].start && b.end <= v[k].end
    ensures forall a: Block :: a in Live(v) ==> a.end <= b.start || b.end <= a.start
  {
    AllOrdered(c, v, 0, c.memSize);
    forall a: Block | a in Live(v) ensures a.end <= b.start || b.end <= a.start {
      var i :| 0 <= i < |v| && v[i] == a;
      assert i != k;
    }
  }

  lemma {:induction false} LowerDoNotFit(c: Config, v: Layout, k: nat, size: nat)
    requires WellFormed(c, v) && k < |v| && forall i :: 0 <= i < k ==> !Fits(c, v[i], size)
    ensures forall f: Block :: f in v && !f.used && f.start < v[k].start ==> f.end < f.start + c.header + size
  {
    AllOrdered(c, v, 0, c.memSize);
    forall f: Block | f in v && !f.used && f.start < v[k].start ensures f.end < f.start + c.header + size {
      var i :| 0 <= i < |v| && v[i] == f;
      assert i < k && !Fits(c, v[i], size);
    }
  }

  lemma {:induction false} TakeServes(c: Config, v: Layout, k: nat, n: nat)
    requires WellFormed(c, v) && n < c.sizeRange && c.Admissible(n) && k == FirstFit(c, v, c.RoundUp(n), 0) && k < |v|
    ensures Serves(c, v, Granted(c, v[k], c.RoundUp(n)), n)
  {
    var b := Granted(c, v[k], c.RoundUp(n));
    ClearOfLive(c, v, k, b);
    LowerDoNotFit(c, v, k, c.RoundUp(n));
    TileAt(c, v, 0, c.memSize, k);
    AlignedSum(c.align, b.start, c.header);
    assert v[k] in v;
  }

  /** mem_trim(n) of block `b` answers `r`.  NULL, for a size that is larger than the heap
      or the block, changes nothing.  Else the block starts where it did, holds `n` bytes, and ends
      behind them, unless what follows is in use and the surplus is no block of its own. */
  ghost predicate Trims(c: Config, v: Layout, w: Layout, b: Block, n: nat, r: Option<nat>)
    requires n < c.sizeRange
  {
    match r
    case None => w == v && (n <= c.memSize ==> b.end < b.start + c.header + c.RoundUp(n))
    case Some(p) => p == b.start + c.header && exists t :: Remains(c, v, b, t, n) && Live(w) == Live(v) - {b} + {t}
  }

  ghost predicate Remains(c: Config, v: Layout, b: Block, t: Block, n: nat)
    requires n < c.sizeRange
  {
    var end := b.start + c.header + c.RoundUp(n);
    && t.used && t.start == b.start && b.start + c.header + n <= end <= t.end <= b.end
    && (t.end == end || (t == b && b.end < end + c.header + c.minSize && forall f: Block :: f in v && f.start == b.end ==> f.used))
  }

  lemma {:induction false} TrimTrims(c: Config, v: Layout, k: nat, n: nat)
    requires WellFormed(c, v) && k < |v| && v[k].used && n < c.sizeRange
    ensures Trims(c, v, TrimLayout(c, v, k, n), v[k], n,
                  if c.Admissible(n) && v[k].start + c.header + c.RoundUp(n) <= v[k].end then Some(v[k].start + c.header) else None)
  {
    AdmissibleIs(c, n);
    var size := c.RoundUp(n);
    if c.Admissible(n) && v[k].start + c.header + size <= v[k].end {
      var t := Trimmed(c, v, k, size);
      ShrinkWellFormed(c, v, k, size);
      AllOrdered(c, v, 0, c.memSize);
      TileAt(c, v, 0, c.memSize, k);
      forall f: Block | t.end != v[k].start + c.header + size && f in v && f.start == v[k].end ensures f.used {
        var i :| 0 <= i < |v| && v[i] == f;
        assert i == k + 1;
      }
      assert Remains(c, v, v[k], t, n);
    }
  }

  /** The user bytes of two live blocks never overlap. */
  lemma {:induction false} LiveBlocksDisjoint(c: Config, v: Layout, a: Block, b: Block)
    requires WellFormed(c, v) && a in Live(v) && b in Live(v) && a != b
    ensures a.end <= b.start || b.end <= a.start
    ensures a.end <= c.memSize && a.start + c.header + c.minSize <= a.end
  {
    AllOrdered(c, v, 0, c.memSize);
    var i :| 0 <= i < |v| && v[i] == a;
    TileAt(c, v, 0, c.memSize, i);
  }
}
