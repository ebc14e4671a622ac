/** What the length-changing operations of lwip/core/pbuf.c do to a chain and its bytes.

    Adding and removing headers, shrinking by pbuf_realloc and splitting by pbuf_split_64k; the
    lemmas follow the loops of these functions link by link. */
module PbufResize {
  import opened Bytes
  import opened Lists
  import opened PbufGraph
  import opened PbufBytes
  import opened PbufMemory

  // ---- headers -------------------------------------------------------------------------

  /** pbuf_remove_header: hides `k` bytes at the front. */
  function WithoutHeader(n: Node, k: nat): Node
    requires k <= n.len
  {
    n.(payload := n.payload + k, len := n.len - k, totLen := Low16(n.totLen - k))
  }

  /** pbuf_add_header: reveals `k` bytes in front of the payload. */
  function WithHeader(n: Node, k: nat): Node
    requires k <= n.payload
  {
    n.(payload := n.payload - k, len := Low16(n.len + k), totLen := Low16(n.totLen + k))
  }

  /** No header is added when `tot_len` would wrap around, when the pbuf has too little room in
      front, or when the memory in front is not its own. */
  predicate HeaderRefused(n: Node, k: nat, force: bool) {
    0x1_0000 <= n.totLen + k || (if n.kind == Reference then !force else n.payload < k)
  }

  /** Adding a header back undoes removing it; what is hidden are the first `k` bytes. */
  lemma {:induction false} AddUndoesRemove(n: Node, k: nat)
    requires k <= n.len && k <= n.totLen
    ensures WithHeader(WithoutHeader(n, k), k) == n
    ensures BytesOf(WithoutHeader(n, k)) == BytesOf(n)[k..]
  {
    assert Low16(n.totLen - k) == n.totLen - k && Low16(n.len - k + k) == n.len && Low16(n.totLen - k + k) == n.totLen;
  }

  /** Removing an added header undoes adding it, unless a length wrapped around. */
  lemma {:induction false} RemoveUndoesAdd(n: Node, k: nat)
    requires k <= n.payload && n.len + k < 0x1_0000 && n.totLen + k < 0x1_0000
    ensures WithoutHeader(WithHeader(n, k), k) == n
    ensures BytesOf(WithHeader(n, k)) == n.buffer[n.payload - k..n.payload] + BytesOf(n)
  {
    assert Low16(n.len + k) == n.len + k && Low16(n.totLen + k) == n.totLen + k && Low16(n.totLen + k - k) == n.totLen;
  }

  // ---- pbuf_split_64k ---------------------------------------------------------------------

  /** The 16-bit sum is smaller than a summand exactly if it wrapped around. */
  predicate Wraps(sum: u16, n: u16)
    ensures Wraps(sum, n) <==> 0x1_0000 <= sum + n
  {
    Low16(sum + n) < sum
  }

  /** How many links the front of a split has when `sum` bytes were seen before `ps`: links
      are taken while the 16-bit sum of their lengths does not wrap around. */
  ghost function FrontLinks(m: Nodes, ps: seq<Ptr>, sum: u16): (k: nat)
    requires AllIn(m, ps)
    ensures k <= |ps|
    decreases |ps|
  {
    if ps == [] || Wraps(sum, m[ps[0]].len) then 0 else 1 + FrontLinks(m, ps[1..], sum + m[ps[0]].len)
  }

  /** The front is as long as its bytes can be counted in 16 bits. */
  lemma {:induction false} FrontFits(m: Nodes, ps: seq<Ptr>, sum: u16)
    requires AllIn(m, ps)
    ensures var k := FrontLinks(m, ps, sum);
            && sum + |Flat(m, ps[..k])| < 0x1_0000
            && (k < |ps| ==> 0x1_0000 <= sum + |Flat(m, ps[..k + 1])|)
    decreases |ps|
  {
    if ps != [] {
      if Wraps(sum, m[ps[0]].len) {
        FlatStep(m, ps, 0);
      } else {
        FrontFits(m, ps[1..], sum + m[ps[0]].len);
        FrontLinksStep(m, ps, FrontLinks(m, ps[1..], sum + m[ps[0]].len));
      }
    }
  }

  lemma {:induction false} FrontLinksStep(m: Nodes, ps: seq<Ptr>, k: nat)
    requires AllIn(m, ps) && ps != [] && k < |ps|
    ensures Flat(m, ps[..k + 1]) == BytesOf(m[ps[0]]) + Flat(m, ps[1..][..k])
    ensures k + 1 < |ps| ==> Flat(m, ps[..k + 2]) == BytesOf(m[ps[0]]) + Flat(m, ps[1..][..k + 1])
  {
    assert ps[..k + 1][1..] == ps[1..][..k];
    if k + 1 < |ps| { assert ps[..k + 2][1..] == ps[1..][..k + 1]; }
  }

  /** Memory after pbuf_split_64k cut the chain `ps` behind its first `k` links. */
  ghost function AfterSplit(m: Memory, ps: seq<Ptr>, k: nat): Memory
    requires 0 < k < |ps| && AllIn(m.node, ps) && ps[k] in m.owners
  {
    var r := ps[k];
    var shorter := AddTotals(m.node, ps[..k], -(m.node[r].totLen as int));
    Owned(Memory(m.next[ps[k - 1] := NULL], m.ref, shorter[r := FinFrom(m.node[r], m.node[ps[0]].fin)], m.owners), r)
  }

  /** The FIN flag moves on to the rest. */
  function FinFrom(n: Node, fin: bool): Node {
    n.(fin := n.fin || fin)
  }

  lemma {:induction false} SplitValid(m: Memory, p: Ptr, ps: seq<Ptr>, k: nat)
    requires m.Valid() && IsList(m.next, p, ps) && 0 < k < |ps|
    ensures AllIn(m.node, ps) && ps[k] in m.owners && AfterSplit(m, ps, k).Valid()
  {
    ListNodes(m.next, p, ps);
    ListAt(m.next, p, ps, k - 1);
    CutKeepsCounts(m.next, m.ref, m.owners, ps[k - 1]);
  }

  lemma {:induction false} SplitNodes(m: Memory, p: Ptr, ps: seq<Ptr>, k: nat)
    requires IsList(m.next, p, ps) && 0 < k < |ps| && AllIn(m.node, ps) && ps[k] in m.owners
    ensures var m' := AfterSplit(m, ps, k);
            && IsList(m'.next, p, ps[..k]) && IsList(m'.next, ps[k], ps[k..])
            && AllIn(m'.node, ps[..k]) && AllIn(m'.node, ps[k..])
            && (forall x :: x in ps[..k] ==> m'.node[x] == Longer(m.node[x], -(m.node[ps[k]].totLen as int)))
            && (forall x :: x in ps[k..] ==> BytesOf(m'.node[x]) == BytesOf(m.node[x]) && m'.node[x].totLen == m.node[x].totLen)
  {
    PartsDisjoint(m.next, p, ps, k);
    ListCut(m.next, p, ps, k);
    assert ps[k] in ps[k..];
  }

  /** Front and rest together hold the bytes of the chain. */
  lemma {:induction false} SplitBytes(m: Memory, p: Ptr, ps: seq<Ptr>, k: nat)
    requires IsList(m.next, p, ps) && 0 < k < |ps| && AllIn(m.node, ps) && ps[k] in m.owners
    ensures var m' := AfterSplit(m, ps, k);
            && AllIn(m'.node, ps[..k]) && AllIn(m'.node, ps[k..])
            && Flat(m'.node, ps[..k]) == Flat(m.node, ps[..k]) && Flat(m'.node, ps[k..]) == Flat(m.node, ps[k..])
            && Flat(m'.node, ps[..k]) + Flat(m'.node, ps[k..]) == Flat(m.node, ps)
  {
    var m' := AfterSplit(m, ps, k);
    SplitNodes(m, p, ps, k);
    FlatFrame(m.node, m'.node, ps[..k]);
    FlatFrame(m.node, m'.node, ps[k..]);
    FlatSplit(m.node, ps, k);
  }

  /** The `tot_len` fields of both parts are right if those of the chain were. */
  lemma {:induction false} SplitTotals(m: Memory, p: Ptr, ps: seq<Ptr>, k: nat)
    requires IsList(m.next, p, ps) && 0 < k < |ps| && AllIn(m.node, ps) && ps[k] in m.owners
    requires Totals(m.node, ps)
    ensures var m' := AfterSplit(m, ps, k);
            && AllIn(m'.node, ps[..k]) && AllIn(m'.node, ps[k..])
            && Totals(m'.node, ps[..k]) && Totals(m'.node, ps[k..])
  {
    var m' := AfterSplit(m, ps, k);
    SplitNodes(m, p, ps, k);
    assert TotalAt(m.node, ps, k);
    assert ps[..k] + ps[k..] == ps;
    PartsTotals(m.node, m'.node, ps[..k], ps[k..], m.node[ps[k]].totLen);
  }

  lemma {:induction false} PartsTotals(m: Nodes, m': Nodes, hs: seq<Ptr>, ts: seq<Ptr>, n: int)
    requires AllIn(m, hs + ts) && AllIn(m', hs) && AllIn(m', ts) && AllIn(m, hs) && AllIn(m, ts)
    requires Totals(m, hs + ts) && n == Low16(|Flat(m, ts)|)
    requires forall x :: x in hs ==> m'[x] == Longer(m[x], -n)
    requires forall x :: x in ts ==> BytesOf(m'[x]) == BytesOf(m[x]) && m'[x].totLen == m[x].totLen
    ensures Totals(m', hs) && Totals(m', ts)
  {
    TotalsSuffix(m, hs + ts, |hs|);
    assert (hs + ts)[|hs|..] == ts;
    TotalsFrame(m, m', ts);
    LongerShifts(m, m', hs, n, |Flat(m, ts)|);
    TotalsCutOff(m, m', hs, ts);
  }

  lemma {:induction false} LongerShifts(m: Nodes, m': Nodes, ps: seq<Ptr>, n: int, k: int)
    requires AllIn(m, ps) && AllIn(m', ps) && n == Low16(k) && forall x :: x in ps ==> m'[x] == Longer(m[x], -n)
    ensures Shifted(m, m', ps, -k)
  {
    forall p | p in ps ensures m'[p].totLen == Low16(m[p].totLen - k) {
      Low16Minus(m[p].totLen, k);
    }
  }

  /** If the application refuses the front again, pbuf_cat restores the chain as it was,
      but for the FIN flag that now also marks the rest. */
  lemma {:induction false} CatUndoesSplit(m: Memory, p: Ptr, ps: seq<Ptr>, k: nat)
    requires IsList(m.next, p, ps) && 0 < k < |ps| && AllIn(m.node, ps) && ps[k] in m.owners
    ensures AfterCat(AfterSplit(m, ps, k), ps[..k], ps[k]) == m.SetNode(ps[k], FinFrom(m.node[ps[k]], m.node[ps[0]].fin))
  {
    var m', r := AfterSplit(m, ps, k), ps[k];
    var back, want := AfterCat(m', ps[..k], r), m.SetNode(r, FinFrom(m.node[r], m.node[ps[0]].fin));
    ListAt(m.next, p, ps, k - 1);
    assert back.next == m.next;
    assert back.owners == m.owners;
    assert back.node == want.node by {
      forall x | x in m.node ensures back.node[x] == want.node[x] {
        SplitAndCatNode(m, p, ps, k, x);
      }
    }
  }

  lemma {:induction false} SplitAndCatNode(m: Memory, p: Ptr, ps: seq<Ptr>, k: nat, x: Ptr)
    requires IsList(m.next, p, ps) && 0 < k < |ps| && AllIn(m.node, ps) && ps[k] in m.owners && x in m.node
    ensures AfterCat(AfterSplit(m, ps, k), ps[..k], ps[k]).node[x] == m.SetNode(ps[k], FinFrom(m.node[ps[k]], m.node[ps[0]].fin)).node[x]
  {
    PartsDisjoint(m.next, p, ps, k);
    assert ps[k] in ps[k..];
    LongerBack(m.node[x], m.node[ps[k]].totLen);
  }

  // ---- pbuf_realloc -------------------------------------------------------------------------

  /** The link in which byte `n` of the chain ends. */
  ghost function LinkOf(m: Nodes, ps: seq<Ptr>, n: nat): (j: nat)
    requires AllIn(m, ps) && ps != []
    ensures j < |ps|
    decreases |ps|
  {
    if n <= m[ps[0]].len || |ps| == 1 then 0 else 1 + LinkOf(m, ps[1..], n - m[ps[0]].len)
  }

  lemma {:induction false} LinkOfBounds(m: Nodes, ps: seq<Ptr>, n: nat)
    requires AllIn(m, ps) && ps != [] && n <= |Flat(m, ps)|
    ensures var j := LinkOf(m, ps, n);
            && |Flat(m, ps[..j])| <= n <= |Flat(m, ps[..j])| + m[ps[j]].len
            && (0 < j ==> |Flat(m, ps[..j])| < n)
            && |Flat(m, ps[..j + 1])| == |Flat(m, ps[..j])| + m[ps[j]].len
    decreases |ps|
  {
    if n <= m[ps[0]].len || |ps| == 1 {
      FlatStep(m, ps, 0);
      if |ps| == 1 { assert ps[1..] == []; }
    } else {
      var j := LinkOf(m, ps[1..], n - m[ps[0]].len);
      assert |Flat(m, ps)| == m[ps[0]].len + |Flat(m, ps[1..])|;
      LinkOfBounds(m, ps[1..], n - m[ps[0]].len);
      FrontLinksStep(m, ps, j);
      FlatStep(m, ps, j + 1);
    }
  }

  /** The new last link, `rem` bytes long; memory from the heap is given back. */
  function Shortened(n: Node, rem: nat): Node
    requires rem <= n.len
  {
    var buffer := if n.kind == Ram && rem != n.len then n.buffer[..n.payload + rem] else n.buffer;
    n.(len := rem, totLen := rem, buffer := buffer)
  }

  /** How many of `n` bytes lie behind the first `j` links. */
  ghost function Left(m: Nodes, ps: seq<Ptr>, n: nat, j: nat): int
    requires j <= |ps| && AllIn(m, ps)
  {
    n - |Flat(m, ps[..j])|
  }

  /** Memory after pbuf_realloc but before the links behind the new last one are released. */
  ghost function AfterShorten(m: Memory, ps: seq<Ptr>, n: nat): Memory
    requires AllIn(m.node, ps) && ps != [] && n <= |Flat(m.node, ps)|
  {
    var j := LinkOf(m.node, ps, n);
    LinkOfBounds(m.node, ps, n);
    ShortenAt(m, ps, Left(m.node, ps, n, |ps|), j, Left(m.node, ps, n, j))
  }

  /** Link `j` ends the chain with `rem` bytes; the links before it lose `-d` from `tot_len`. */
  ghost function ShortenAt(m: Memory, ps: seq<Ptr>, d: int, j: nat, rem: nat): Memory
    requires j < |ps| && ps[j] in m.node && rem <= m.node[ps[j]].len
  {
    Shift(m, ps, d, j).SetNode(ps[j], Shortened(m.node[ps[j]], rem))
  }

  lemma {:induction false} ShortenNodes(m: Memory, p: Ptr, ps: seq<Ptr>, n: nat, j: nat, rem: int)
    requires IsList(m.next, p, ps) && AllIn(m.node, ps) && ps != [] && n <= |Flat(m.node, ps)|
    requires j == LinkOf(m.node, ps, n) && rem == n - |Flat(m.node, ps[..j])|
    ensures var m' := AfterShorten(m, ps, n);
            && AllIn(m'.node, ps) && 0 <= rem <= m.node[ps[j]].len
            && (forall x :: x in ps[..j] ==> m'.node[x] == Longer(m.node[x], n - |Flat(m.node, ps)|))
            && m'.node[ps[j]].len == m'.node[ps[j]].totLen == rem
            && BytesOf(m'.node[ps[j]]) == BytesOf(m.node[ps[j]])[..rem]
  {
    assert ps[..|ps|] == ps;
    LinkOfBounds(m.node, ps, n);
    PartsDisjoint(m.next, p, ps, j);
    assert ps[j] in ps[j..];
    ShortenedBytes(m.node[ps[j]], rem);
  }

  lemma {:induction false} ShortenedBytes(n: Node, rem: nat)
    requires rem <= n.len
    ensures BytesOf(Shortened(n, rem)) == BytesOf(n)[..rem]
  {
    assert BytesOf(n)[..rem] == n.buffer[n.payload..n.payload + rem];
    assert n.buffer[..n.payload + rem][n.payload..n.payload + rem] == n.buffer[n.payload..n.payload + rem];
  }

  /** The bytes that stay are a prefix. */
  lemma {:induction false} ShortenBytes(m: Memory, p: Ptr, ps: seq<Ptr>, n: nat)
    requires IsList(m.next, p, ps) && AllIn(m.node, ps) && ps != [] && n <= |Flat(m.node, ps)|
    ensures var m', j := AfterShorten(m, ps, n), LinkOf(m.node, ps, n);
            AllIn(m'.node, ps[..j + 1]) && Flat(m'.node, ps[..j + 1]) == Flat(m.node, ps)[..n]
  {
    var m', j := AfterShorten(m, ps, n), LinkOf(m.node, ps, n);
    var rem := n - |Flat(m.node, ps[..j])|;
    ShortenNodes(m, p, ps, n, j, rem);
    FlatSplit(m.node, ps, j);
    FlatStep(m.node, ps, j);
    FlatFrame(m.node, m'.node, ps[..j]);
    FlatStep(m'.node, ps, j);
    assert Flat(m'.node, ps[..j + 1]) == Flat(m.node, ps[..j]) + BytesOf(m.node[ps[j]])[..rem];
    assert Flat(m.node, ps) == Flat(m.node, ps[..j]) + (BytesOf(m.node[ps[j]]) + Flat(m.node, ps[j + 1..]));
    PrefixAcross(Flat(m.node, ps[..j]), BytesOf(m.node[ps[j]]), Flat(m.node, ps[j + 1..]), rem);
  }

  lemma {:induction false} PrefixAcross(a: seq<byte>, b: seq<byte>, c: seq<byte>, k: nat)
    requires k <= |b|
    ensures (a + (b + c))[..|a| + k] == a + b[..k]
  {
    assert b == b[..k] + b[k..];
    assert a + (b + c) == (a + b[..k]) + (b[k..] + c);
    assert ((a + b[..k]) + (b[k..] + c))[..|a| + k] == a + b[..k];
  }

  /** Their `tot_len` fields are exact if those of the chain were. */
  lemma {:induction false} ShortenTotals(m: Memory, p: Ptr, ps: seq<Ptr>, n: nat)
    requires IsList(m.next, p, ps) && AllIn(m.node, ps) && ps != [] && n <= |Flat(m.node, ps)| && Totals(m.node, ps)
    ensures var m', j := AfterShorten(m, ps, n), LinkOf(m.node, ps, n);
            AllIn(m'.node, ps[..j + 1]) && Totals(m'.node, ps[..j + 1])
  {
    var m', j := AfterShorten(m, ps, n), LinkOf(m.node, ps, n);
    ShortenNodes(m, p, ps, n, j, n - |Flat(m.node, ps[..j])|);
    ShortenBytes(m, p, ps, n);
    assert |Flat(m'.node, ps[..j + 1])| == n;
    PrefixTotals(m.node, m'.node, ps, j, n);
  }

  lemma {:induction false} PrefixTotals(m: Nodes, m': Nodes, ps: seq<Ptr>, j: nat, n: nat)
    requires AllIn(m, ps) && AllIn(m', ps) && j < |ps| && Totals(m, ps) && |Flat(m', ps[..j + 1])| == n
    requires forall x :: x in ps[..j] ==> m'[x] == Longer(m[x], n - |Flat(m, ps)|)
    requires m'[ps[j]].totLen == m'[ps[j]].len
    ensures Totals(m', ps[..j + 1])
  {
    var front := ps[..j + 1];
    assert front[j..] == [ps[j]];
    assert Flat(m', [ps[j]]) == BytesOf(m'[ps[j]]) by { assert [ps[j]][1..] == []; }
    forall i | 0 <= i < |front| ensures TotalAt(m', front, i) {
      if i < j {
        assert ps[i] in ps[..j];
        assert forall x :: x in ps[..i] ==> x in ps[..j];
        assert TotalAt(m, ps, i);
        PrefixTotal(m, m', ps, j, n, i);
      }
    }
  }

  lemma {:induction false} PrefixTotal(m: Nodes, m': Nodes, ps: seq<Ptr>, j: nat, n: nat, i: nat)
    requires AllIn(m, ps) && i < j < |ps| && AllIn(m', ps[..j + 1]) && |Flat(m', ps[..j + 1])| == n
    requires forall x :: x in ps[..i] ==> BytesOf(m'[x]) == BytesOf(m[x])
    requires TotalAt(m, ps, i) && m'[ps[i]] == Longer(m[ps[i]], n - |Flat(m, ps)|)
    ensures TotalAt(m', ps[..j + 1], i)
  {
    var front := ps[..j + 1];
    FlatSplit(m', front, i);
    FlatSplit(m, ps, i);
    assert front[..i] == ps[..i] && front[i] == ps[i];
    FlatFrame(m, m', ps[..i]);
    Low16Plus(|Flat(m, ps[i..])|, n - |Flat(m, ps)|);
  }

  ghost predicate Linked(m: Memory, p: Ptr) {
    p in m.next && p in m.owners && (m.next[p] == NULL || m.next[p] in m.owners)
  }

  lemma {:induction false} CutParts(m: Memory, p: Ptr, ps: seq<Ptr>, j: nat)
    requires m.Valid() && IsList(m.next, p, ps) && j < |ps|
    ensures Linked(m, ps[j])
    ensures var cut, q := AfterCut(m, ps[j]), m.next[ps[j]];
            && cut.Valid() && IsList(cut.next, p, ps[..j + 1])
            && IsList(cut.next, q, ps[j + 1..]) && q == Head(ps[j + 1..])
            && (q != NULL ==> q in cut.next && 0 < cut.owners[q])
  {
    ListNodes(m.next, p, ps);
    assert At(m.next, m.ref, m.owners, NULL, ps[j]);
    CutValid(m, ps[j]);
    CutChain(m, p, ps, j);
  }

  /** Releasing what follows link `j`. */
  ghost function AfterRelease(m: Memory, ps: seq<Ptr>, j: nat): Memory
    requires j < |ps| && Linked(m, ps[j])
  {
    var cut := AfterCut(m, ps[j]);
    if m.next[ps[j]] == NULL then cut else AfterFree(cut, m.next[ps[j]], ps[j + 1..])
  }

  lemma {:induction false} ReleaseKeepsFront(m: Memory, p: Ptr, ps: seq<Ptr>, j: nat)
    requires m.Valid() && IsList(m.next, p, ps) && j < |ps| && Linked(m, ps[j]) && AllIn(m.node, ps)
    ensures var m' := AfterRelease(m, ps, j);
            && m'.Valid() && m'.Chain(p, ps[..j + 1])
            && forall x :: x in ps[..j + 1] ==> m'.node[x] == m.node[x]
  {
    var cut, q := AfterCut(m, ps[j]), m.next[ps[j]];
    CutParts(m, p, ps, j);
    if q != NULL {
      FreeValid(cut, q, ps[j + 1..]);
      PartsDisjoint(m.next, p, ps, j + 1);
      FreeKeepsList(cut, q, ps[j + 1..], p, ps[..j + 1]);
    }
  }

  lemma {:induction false} ShortenValid(m: Memory, p: Ptr, ps: seq<Ptr>, n: nat)
    requires m.Valid() && IsList(m.next, p, ps) && AllIn(m.node, ps) && ps != [] && n <= |Flat(m.node, ps)|
    ensures var short := AfterShorten(m, ps, n);
            && short.Valid() && IsList(short.next, p, ps) && AllIn(short.node, ps)
            && Linked(short, ps[LinkOf(m.node, ps, n)])
  {
    var short := AfterShorten(m, ps, n);
    NodesDoNotMatter(m, short.node);
    CutParts(short, p, ps, LinkOf(m.node, ps, n));
  }

  /** Memory after pbuf_realloc. */
  ghost function AfterRealloc(m: Memory, p: Ptr, ps: seq<Ptr>, n: nat): Memory
    requires m.Valid() && IsList(m.next, p, ps) && AllIn(m.node, ps) && ps != [] && n <= |Flat(m.node, ps)|
  {
    ShortenValid(m, p, ps, n);
    AfterRelease(AfterShorten(m, ps, n), ps, LinkOf(m.node, ps, n))
  }

  /** The chain ends with the link in which byte `n` did, and carries the bytes up to there. */
  ghost predicate Shrunk(m: Memory, m': Memory, p: Ptr, ps: seq<Ptr>, n: nat)
    requires AllIn(m.node, ps) && ps != [] && n <= |Flat(m.node, ps)|
  {
    m'.Valid() && Carries(m', p, ps[..LinkOf(m.node, ps, n) + 1], Flat(m.node, ps)[..n])
  }

  /** pbuf_realloc to a smaller size is taking a prefix, with exact `tot_len` fields. */
  lemma {:induction false} ReallocBytes(m: Memory, p: Ptr, ps: seq<Ptr>, n: nat)
    requires m.Valid() && IsList(m.next, p, ps) && AllIn(m.node, ps) && ps != [] && n <= |Flat(m.node, ps)| && Totals(m.node, ps)
    ensures Shrunk(m, AfterRealloc(m, p, ps, n), p, ps, n)
  {
    var j, short := LinkOf(m.node, ps, n), AfterShorten(m, ps, n);
    ShortenValid(m, p, ps, n);
    assert AfterRealloc(m, p, ps, n) == AfterRelease(short, ps, j);
    ShortenCarries(m, p, ps, n, j, short);
    ReleaseCarries(short, p, ps, j, Flat(m.node, ps)[..n]);
  }

  /** `x` does not change at all, nor do the references to it. */
  ghost predicate Same(m: Memory, m': Memory, x: Ptr) {
    && x in m.next && x in m'.next && m'.next[x] == m.next[x] && x in m.owners && x in m'.owners && m'.owners[x] == m.owners[x]
    && x in m.ref && x in m'.ref && m'.ref[x] == m.ref[x] && x in m.node && x in m'.node && m'.node[x] == m.node[x]
  }

  /** A pbuf survives with its owners, its link and what is in it. */
  ghost predicate Stays(m: Memory, m': Memory, x: Ptr) {
    && x in m.next && x in m'.next && m'.next[x] == m.next[x] && x in m.owners && x in m'.owners && m'.owners[x] == m.owners[x]
    && x in m.node && x in m'.node && m'.node[x] == m.node[x]
  }

  /** What becomes of the links behind the new last one, `l`: `x` is gone exactly if it is one of
      them, nobody owns it, and all that pointed to it are gone or are the new last link. */
  ghost predicate LetGo(m: Memory, m': Memory, rest: seq<Ptr>, l: Ptr, x: Ptr)
    requires x in m.owners
  {
    && (x !in m'.next <==> x in rest && m.owners[x] == 0 && forall q :: q in Preds(m.next, x) ==> q == l || q !in m'.next)
    && (x in m'.next && x in rest ==> Stays(m, m', x))
  }

  lemma {:induction false} ReleaseStays(m: Memory, p: Ptr, ps: seq<Ptr>, j: nat, x: Ptr)
    requires m.Valid() && IsList(m.next, p, ps) && j < |ps| && Linked(m, ps[j]) && x in m.next && x != ps[j] && x in AfterRelease(m, ps, j).next
    ensures Stays(m, AfterRelease(m, ps, j), x)
  {
    CutParts(m, p, ps, j);
    assert m.owners.Keys == m.next.Keys && m.node.Keys == m.next.Keys;
  }

  lemma {:induction false} CutPreds(m: Memory, l: Ptr, x: Ptr)
    requires Linked(m, l) && x != NULL
    ensures Preds(AfterCut(m, l).next, x) == if m.next[l] == NULL then Preds(m.next, x) else Preds(m.next, x) - {l}
  {
  }

  lemma {:induction false} ReleaseLetsGo(m: Memory, p: Ptr, ps: seq<Ptr>, j: nat, x: Ptr)
    requires m.Valid() && IsList(m.next, p, ps) && j < |ps| && Linked(m, ps[j]) && x in m.next
    ensures LetGo(m, AfterRelease(m, ps, j), ps[j + 1..], ps[j], x)
  {
    var cut, q, m' := AfterCut(m, ps[j]), m.next[ps[j]], AfterRelease(m, ps, j);
    CutParts(m, p, ps, j);
    if x in m'.next && x != ps[j] { ReleaseStays(m, p, ps, j, x); }
    ListNodes(m.next, p, ps);
    ListDistinct(m.next, p, ps);
    CutPreds(m, ps[j], x);
    if q != NULL {
      FreedExactlyUnreferenced(cut, q, ps[j + 1..], x);
      if x !in m'.next { FreedIsInChain(cut, q, ps[j + 1..], x); }
    }
  }

  lemma {:induction false} ReleaseSpares(m: Memory, p: Ptr, ps: seq<Ptr>, j: nat, x: Ptr)
    requires m.Valid() && IsList(m.next, p, ps) && j < |ps| && Linked(m, ps[j]) && x in m.next && x !in ps
    ensures Same(m, AfterRelease(m, ps, j), x)
  {
    CutParts(m, p, ps, j);
    assert ps[j] in ps && forall y :: y in ps[j + 1..] ==> y in ps;
    assert m.next[ps[j]] == Head(ps[j + 1..]);
  }

  /** pbuf_realloc keeps the least number of links that hold the bytes, ends the chain there, and
      deallocates the links behind exactly if nobody else refers to them; other pbufs stay as they
      are. */
  lemma {:induction false} ReallocLetsGo(m: Memory, p: Ptr, ps: seq<Ptr>, n: nat, x: Ptr)
    requires m.Valid() && IsList(m.next, p, ps) && AllIn(m.node, ps) && ps != [] && n <= |Flat(m.node, ps)| && x in m.next
    ensures var m', j := AfterRealloc(m, p, ps, n), LinkOf(m.node, ps, n);
            && (0 < j ==> |Flat(m.node, ps[..j])| < n) && n <= |Flat(m.node, ps[..j + 1])|
            && LetGo(m, m', ps[j + 1..], ps[j], x) && (x !in ps ==> Same(m, m', x))
            && ps[j] in m'.next && m'.next[ps[j]] == NULL
  {
    var j, short := LinkOf(m.node, ps, n), AfterShorten(m, ps, n);
    LinkOfBounds(m.node, ps, n);
    ShortenValid(m, p, ps, n);
    ReleaseLetsGo(short, p, ps, j, x);
    ListDistinct(m.next, p, ps);
    ListNodes(m.next, p, ps);
    assert short.next == m.next && short.owners == m.owners && short.ref == m.ref;
    if x !in ps { ReleaseSpares(short, p, ps, j, x); }
    ReleaseKeepsFront(short, p, ps, j);
    ListAt(AfterRealloc(m, p, ps, n).next, p, ps[..j + 1], j);
  }

  /** The new last link keeps its memory, but for what is behind its bytes if that can be given back
      to the heap and the link was cut. */
  lemma {:induction false} ReallocGivesBack(m: Memory, p: Ptr, ps: seq<Ptr>, n: nat)
    requires m.Valid() && IsList(m.next, p, ps) && AllIn(m.node, ps) && ps != [] && n <= |Flat(m.node, ps)|
    ensures var m', j := AfterRealloc(m, p, ps, n), LinkOf(m.node, ps, n);
            && ps[j] in m'.node && ps[j] in m.node && m'.node[ps[j]].payload == m.node[ps[j]].payload && m'.node[ps[j]].len <= m.node[ps[j]].len
            && m'.node[ps[j]].buffer == if m.node[ps[j]].kind == Ram && n < |Flat(m.node, ps[..j + 1])|
                                        then m.node[ps[j]].buffer[..m.node[ps[j]].payload + m'.node[ps[j]].len] else m.node[ps[j]].buffer
  {
    var j, short := LinkOf(m.node, ps, n), AfterShorten(m, ps, n);
    LinkOfBounds(m.node, ps, n);
    ShortenValid(m, p, ps, n);
    ReleaseKeepsFront(short, p, ps, j);
    assert ps[j] in ps[..j + 1];
  }

  lemma {:induction false} ShortenCarries(m: Memory, p: Ptr, ps: seq<Ptr>, n: nat, j: nat, short: Memory)
    requires IsList(m.next, p, ps) && AllIn(m.node, ps) && ps != [] && n <= |Flat(m.node, ps)| && Totals(m.node, ps)
    requires short == AfterShorten(m, ps, n) && j == LinkOf(m.node, ps, n)
    ensures AllIn(short.node, ps[..j + 1]) && Flat(short.node, ps[..j + 1]) == Flat(m.node, ps)[..n]
    ensures Totals(short.node, ps[..j + 1])
  {
    ShortenBytes(m, p, ps, n);
    ShortenTotals(m, p, ps, n);
  }

  lemma {:induction false} ReleaseCarries(m: Memory, p: Ptr, ps: seq<Ptr>, j: nat, b: seq<byte>)
    requires m.Valid() && IsList(m.next, p, ps) && j < |ps| && Linked(m, ps[j]) && AllIn(m.node, ps)
    requires AllIn(m.node, ps[..j + 1]) && Flat(m.node, ps[..j + 1]) == b && Totals(m.node, ps[..j + 1])
    ensures AfterRelease(m, ps, j).Valid() && Carries(AfterRelease(m, ps, j), p, ps[..j + 1], b)
  {
    ReleaseKeepsFront(m, p, ps, j);
    var m', front := AfterRelease(m, ps, j), ps[..j + 1];
    FlatFrame(m.node, m'.node, front);
    TotalsFrame(m.node, m'.node, front);
  }

  lemma {:induction false} LinkOfIs(m: Nodes, ps: seq<Ptr>, n: nat, i: nat)
    requires AllIn(m, ps) && ps != [] && n <= |Flat(m, ps)| && i < |ps|
    requires (0 < i ==> |Flat(m, ps[..i])| < n) && n <= |Flat(m, ps[..i + 1])|
    ensures LinkOf(m, ps, n) == i
  {
    var j := LinkOf(m, ps, n);
    LinkOfBounds(m, ps, n);
    if i < j { FlatGrows(m, ps, i + 1, j); }
    if j < i { FlatGrows(m, ps, j + 1, i); }
  }

  lemma {:induction false} ShortenLast(m: Memory, cur: Memory, p: Ptr, ps: seq<Ptr>, n: nat, i: nat, rem: nat, d: int)
    requires IsList(m.next, p, ps) && AllIn(m.node, ps) && i < |ps| && n <= |Flat(m.node, ps)| && d == n - |Flat(m.node, ps)|
    requires rem == Left(m.node, ps, n, i) && (0 < i ==> 0 < rem) && rem <= m.node[ps[i]].len
    requires cur == Shift(m, ps, d, i)
    ensures i == LinkOf(m.node, ps, n)
    ensures ps[i] in cur.node && rem <= cur.node[ps[i]].len
    ensures cur.SetNode(ps[i], Shortened(cur.node[ps[i]], rem)) == AfterShorten(m, ps, n)
  {
    ShiftRound(m, p, ps, d, i);
    FlatStep(m.node, ps, i);
    LinkOfIs(m.node, ps, n, i);
    assert ps[..|ps|] == ps;
    ShortenAtIs(m, ps, n, i, rem, d);
    assert cur.node[ps[i]] == m.node[ps[i]];
  }

  lemma {:induction false} ShortenAtIs(m: Memory, ps: seq<Ptr>, n: nat, i: nat, rem: nat, d: int)
    requires AllIn(m.node, ps) && ps != [] && n <= |Flat(m.node, ps)| && d == Left(m.node, ps, n, |ps|)
    requires i == LinkOf(m.node, ps, n) && rem == Left(m.node, ps, n, i) && rem <= m.node[ps[i]].len
    ensures AfterShorten(m, ps, n) == ShortenAt(m, ps, d, i, rem)
  {
  }

  /** The walk of pbuf_realloc stands before link `i` with `rem` bytes to go. */
  ghost predicate Shrinking(m: Memory, ps: seq<Ptr>, n: nat, i: nat, rem: int) {
    i < |ps| && AllIn(m.node, ps[..i]) && rem == n - |Flat(m.node, ps[..i])| && (0 < i ==> 0 < rem)
  }

  lemma {:induction false} ShrinkStart(m: Memory, p: Ptr, ps: seq<Ptr>, n: nat, d: int)
    requires IsList(m.next, p, ps) && AllIn(m.node, ps) && ps != []
    ensures p == ps[0] && p in m.node && Shift(m, ps, d, 0) == m && Shrinking(m, ps, n, 0, n)
  {
    ShiftStart(m, ps, d);
    assert ps[..0] == [];
  }

  lemma {:induction false} ShrinkRound(m: Memory, p: Ptr, ps: seq<Ptr>, n: nat, d: int, i: nat, rem: nat)
    requires IsList(m.next, p, ps) && AllIn(m.node, ps) && n <= |Flat(m.node, ps)|
    requires Shrinking(m, ps, n, i, rem) && rem > m.node[ps[i]].len
    ensures Shrinking(m, ps, n, i + 1, rem - m.node[ps[i]].len)
    ensures var cur, q, r := Shift(m, ps, d, i), ps[i], ps[i + 1];
            && q in cur.node && q in cur.next && cur.next[q] == r
            && cur.SetNode(q, Longer(cur.node[q], d)) == Shift(m, ps, d, i + 1)
            && r in Shift(m, ps, d, i + 1).node && Shift(m, ps, d, i + 1).node[r] == m.node[r]
  {
    FlatStep(m.node, ps, i);
    FlatSplit(m.node, ps, i + 1);
    ShiftRound(m, p, ps, d, i);
    ShiftRound(m, p, ps, d, i + 1);
  }

  // ---- rounds of pbuf_split_64k ------------------------------------------------------------

  lemma {:induction false} FirstLinkFits(m: Nodes, ps: seq<Ptr>)
    requires AllIn(m, ps) && ps != []
    ensures FrontLinks(m, ps, 0) == 1 + FrontLinks(m, ps[1..], m[ps[0]].len)
  {
  }

  /** The walk of pbuf_split_64k stands before link `j`. */
  lemma {:induction false} FrontRound(m: Nodes, ps: seq<Ptr>, j: nat, sum: u16)
    requires AllIn(m, ps) && j < |ps|
    ensures AllIn(m, ps[j..]) && AllIn(m, ps[j + 1..])
    ensures if Wraps(sum, m[ps[j]].len) then FrontLinks(m, ps[j..], sum) == 0
            else FrontLinks(m, ps[j..], sum) == 1 + FrontLinks(m, ps[j + 1..], Low16(sum + m[ps[j]].len))
  {
    assert ps[j..][1..] == ps[j + 1..];
    if !Wraps(sum, m[ps[j]].len) {
      assert Low16(sum + m[ps[j]].len) == sum + m[ps[j]].len;
    }
  }

  lemma {:induction false} SplitStart(m: Memory, p: Ptr, ps: seq<Ptr>, hs: seq<Ptr>)
    requires m.Valid() && IsList(m.next, p, ps) && 0 < |hs| < |ps| && hs == ps[..|hs|] && AllIn(m.node, ps)
    ensures var r, cut := ps[|hs|], m.SetNext(ps[|hs| - 1], NULL);
            && r != NULL && r in m.node && r in m.owners && r !in hs && AllIn(m.node, hs)
            && IsList(cut.next, p, hs) && AfterSplit(m, ps, |hs|).Valid()
  {
    SplitValid(m, p, ps, |hs|);
    ListCut(m.next, p, ps, |hs|);
    ListNodes(m.next, p, ps);
    PartsDisjoint(m.next, p, ps, |hs|);
    assert ps[|hs|] in ps[|hs|..];
  }

  lemma {:induction false} SplitDone(m: Memory, cut: Memory, cur: Memory, p: Ptr, ps: seq<Ptr>, hs: seq<Ptr>, d: int)
    requires IsList(m.next, p, ps) && 0 < |hs| < |ps| && hs == ps[..|hs|] && AllIn(m.node, ps) && ps[|hs|] in m.owners
    requires cut == m.SetNext(ps[|hs| - 1], NULL) && d == -(m.node[ps[|hs|]].totLen as int) && cur == Shift(cut, hs, d, |hs|)
    ensures ps[|hs|] in cur.node && p in cur.node && ps[|hs|] in cur.owners
    ensures Owned(cur.SetNode(ps[|hs|], FinFrom(cur.node[ps[|hs|]], cur.node[p].fin)), ps[|hs|]) == AfterSplit(m, ps, |hs|)
  {
    PartsDisjoint(m.next, p, ps, |hs|);
    ListNodes(m.next, p, ps);
    assert ps[|hs|] in ps[|hs|..] && hs[..|hs|] == hs;
    assert cur.node[ps[|hs|]] == m.node[ps[|hs|]] && cur.node[p].fin == m.node[ps[0]].fin;
  }
}
