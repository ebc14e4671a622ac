/** lwip/core/pbuf.c: operations that read a chain at byte offsets. */
module PbufRead {
  import opened Bytes
  import opened Lists
  import opened PbufBytes
  import opened PbufMemory

  // ---- what they mean for the bytes of the chain -----------------------------------------

  /** At most `len` bytes from `offset` on. */
  ghost function Slice(b: seq<byte>, offset: nat, len: nat): seq<byte> {
    if |b| <= offset then [] else if |b| <= offset + len then b[offset..] else b[offset..offset + len]
  }

  lemma {:induction false} SliceAt(b: seq<byte>, offset: nat, len: nat)
    ensures |Slice(b, offset, len)| == if |b| <= offset then 0 else if |b| - offset <= len then |b| - offset else len
    ensures forall i :: 0 <= i < |Slice(b, offset, len)| ==> Slice(b, offset, len)[i] == b[offset + i]
  {
  }

  ghost predicate OccursAt(b: seq<byte>, mem: seq<byte>, i: nat) {
    i + |mem| <= |b| && b[i..i + |mem|] == mem
  }

  /** The first `k` bytes of `s` are found at `i`. */
  ghost predicate Matches(b: seq<byte>, s: seq<byte>, i: nat, k: nat) {
    k <= |s| && i + k <= |b| && b[i..i + k] == s[..k]
  }

  /** The first difference is at byte `k`. */
  ghost predicate DiffersAt(b: seq<byte>, s: seq<byte>, i: nat, k: nat) {
    Matches(b, s, i, k) && k < |s| && i + k < |b| && b[i + k] != s[k]
  }

  lemma {:induction false} MatchesNext(b: seq<byte>, s: seq<byte>, i: nat, k: nat)
    requires Matches(b, s, i, k) && k < |s| && i + k < |b|
    ensures if b[i + k] == s[k] then Matches(b, s, i, k + 1) else DiffersAt(b, s, i, k)
  {
    if b[i + k] == s[k] { assert b[i..i + k + 1] == b[i..i + k] + [s[k]]; }
  }

  lemma {:induction false} NoOccurrence(b: seq<byte>, s: seq<byte>, i: nat, k: nat)
    requires DiffersAt(b, s, i, k)
    ensures !OccursAt(b, s, i)
  {
    if i + |s| <= |b| { assert b[i..i + |s|][k] == b[i + k]; }
  }

  lemma {:induction false} Occurrence(b: seq<byte>, s: seq<byte>, i: nat, r: nat)
    requires if r == 0 then Matches(b, s, i, |s|) else DiffersAt(b, s, i, r - 1)
    ensures OccursAt(b, s, i) <==> r == 0
  {
    if r == 0 { assert s[..|s|] == s; } else { NoOccurrence(b, s, i, r - 1); }
  }

  const NOT_FOUND: u16 := 0xFFFF

  // ---- pbuf_skip ---------------------------------------------------------------------------

  /** Byte `offset` of the chain is byte `left` of link `k`. */
  ghost predicate SkippedTo(m: Memory, ps: seq<Ptr>, offset: nat, k: nat, left: int)
    requires AllIn(m.node, ps)
  {
    && k <= |ps| && left == offset - |Flat(m.node, ps[..k])| && 0 <= left
    && if k < |ps| then left < m.node[ps[k]].len else |Flat(m.node, ps)| <= offset
  }

  lemma {:induction false} SkipRound(m: Memory, p: Ptr, ps: seq<Ptr>, k: nat)
    requires m.Chain(p, ps) && k <= |ps|
    ensures Head(ps[k..]) == NULL <==> k == |ps|
    ensures k < |ps| ==> var q := ps[k];
            && q in m.next && q in m.node && m.next[q] == Head(ps[k + 1..])
            && |Flat(m.node, ps[..k + 1])| == |Flat(m.node, ps[..k])| + m.node[q].len
  {
    if k < |ps| { NextLink(m, p, ps, k); } else { assert ps[k..] == []; }
  }

  /** pbuf_skip_const */
  method Skip(m: Memory, p: Ptr, offset: u16, ghost ps: seq<Ptr>) returns (q: Ptr, left: u16, ghost k: nat)
    requires m.Chain(p, ps)
    ensures SkippedTo(m, ps, offset, k, left) && q == Head(ps[k..]) && (q == NULL <==> k == |ps|)
  {
    q, left, k := p, offset, 0;
    ListNodes(m.next, p, ps);
    SkipRound(m, p, ps, 0);
    while q != NULL && m.node[q].len <= left
      invariant 0 <= k <= |ps| && q == Head(ps[k..]) && (q == NULL <==> k == |ps|)
      invariant left == offset - |Flat(m.node, ps[..k])|
      decreases |ps| - k
    {
      SkipRound(m, p, ps, k);
      left := Low16(left - m.node[q].len);
      q := m.next[q];
      k := k + 1;
      SkipRound(m, p, ps, k);
    }
    assert ps[..|ps|] == ps;
  }

  lemma {:induction false} ByteInLink(m: Memory, ps: seq<Ptr>, offset: nat, k: nat, left: nat)
    requires AllIn(m.node, ps) && SkippedTo(m, ps, offset, k, left) && k < |ps|
    ensures offset < |Flat(m.node, ps)| && Flat(m.node, ps)[offset] == BytesOf(m.node[ps[k]])[left]
  {
    FlatSplit(m.node, ps, k);
    FlatStep(m.node, ps, k);
  }

  /** What `tot_len` tells about the bytes from `offset` on. */
  lemma {:induction false} SkippedTotal(m: Memory, ps: seq<Ptr>, offset: nat, k: nat, left: nat)
    requires AllIn(m.node, ps) && SkippedTo(m, ps, offset, k, left) && k < |ps| && Totals(m.node, ps) && |Flat(m.node, ps)| < 0x1_0000
    ensures offset < |Flat(m.node, ps)| && m.node[ps[k]].totLen - left == |Flat(m.node, ps)| - offset
  {
    assert TotalAt(m.node, ps, k);
    FlatSplit(m.node, ps, k);
    FlatStep(m.node, ps, k);
  }

  /** pbuf_try_get_at: the byte at `offset`, -1 behind the end. */
  method TryGetAt(m: Memory, p: Ptr, offset: u16, ghost ps: seq<Ptr>) returns (r: int)
    requires m.Chain(p, ps)
    ensures r == if offset < |Flat(m.node, ps)| then Flat(m.node, ps)[offset] else -1
  {
    var q, i;
    ghost var k;
    q, i, k := Skip(m, p, offset, ps);
    ListNodes(m.next, p, ps);
    if q != NULL && m.node[q].len > i {
      ByteInLink(m, ps, offset, k, i);
      return BytesOf(m.node[q])[i];
    }
    return -1;
  }

  /** pbuf_get_at: 0 behind the end. */
  method GetAt(m: Memory, p: Ptr, offset: u16, ghost ps: seq<Ptr>) returns (r: byte)
    requires m.Chain(p, ps)
    ensures r == if offset < |Flat(m.node, ps)| then Flat(m.node, ps)[offset] else 0
  {
    var ret := TryGetAt(m, p, offset, ps);
    return if ret >= 0 then ret else 0;
  }

  // ---- pbuf_copy_partial ---------------------------------------------------------------------

  function Min(a: nat, b: nat): nat {
    if b < a then b else a
  }

  /** pbuf_copy_partial has copied `done` and stands before link `i`. */
  ghost predicate Copying(m: Memory, ps: seq<Ptr>, goal: seq<byte>, done: seq<byte>, i: nat, offset: nat, len: nat)
    requires AllIn(m.node, ps)
  {
    i <= |ps| && goal == done + Slice(Flat(m.node, ps[i..]), offset, len)
  }

  lemma {:induction false} CopySkips(m: Memory, ps: seq<Ptr>, goal: seq<byte>, done: seq<byte>, i: nat, offset: nat, len: nat)
    requires AllIn(m.node, ps) && Copying(m, ps, goal, done, i, offset, len) && i < |ps| && m.node[ps[i]].len <= offset
    ensures Copying(m, ps, goal, done, i + 1, offset - m.node[ps[i]].len, len)
  {
    FlatStep(m.node, ps, i);
  }

  lemma {:induction false} CopyTakes(m: Memory, ps: seq<Ptr>, goal: seq<byte>, done: seq<byte>, i: nat, offset: nat, len: nat)
    requires AllIn(m.node, ps) && Copying(m, ps, goal, done, i, offset, len) && i < |ps| && offset <= m.node[ps[i]].len
    ensures var b, n := BytesOf(m.node[ps[i]]), Min(m.node[ps[i]].len - offset, len);
            Copying(m, ps, goal, done + b[offset..offset + n], i + 1, 0, len - n)
  {
    var b, c, n := BytesOf(m.node[ps[i]]), Flat(m.node, ps[i + 1..]), Min(m.node[ps[i]].len - offset, len);
    FlatStep(m.node, ps, i);
    assert Slice(b + c, offset, len) == b[offset..offset + n] + Slice(c, 0, len - n);
    assert done + (b[offset..offset + n] + Slice(c, 0, len - n)) == (done + b[offset..offset + n]) + Slice(c, 0, len - n);
  }

  /** MEMCPY behind what was copied before. */
  method Append(buffer: array<byte>, left: nat, b: seq<byte>, ghost done: seq<byte>, ghost was: seq<byte>)
    requires left + |b| <= buffer.Length && buffer[..left] == done && |was| == buffer.Length && buffer[left..] == was[left..]
    modifies buffer
    ensures buffer[..left + |b|] == done + b && buffer[left + |b|..] == was[left + |b|..]
  {
    forall i | 0 <= i < |b| {
      buffer[left + i] := b[i];
    }
    assert buffer[..left] == done;
    assert buffer[left + |b|..] == old(buffer[left..])[|b|..];
  }

  /** Copies from one link. */
  method CopyPart(m: Memory, q: Ptr, buffer: array<byte>, left: u16, offset: u16, len: u16,
                  ghost ps: seq<Ptr>, ghost i: nat, ghost goal: seq<byte>, ghost done: seq<byte>, ghost was: seq<byte>)
    returns (n: u16, ghost done': seq<byte>)
    requires AllIn(m.node, ps) && Copying(m, ps, goal, done, i, offset, len) && i < |ps| && q == ps[i] && offset <= m.node[q].len
    requires left + len <= buffer.Length && buffer[..left] == done && |was| == buffer.Length && buffer[left..] == was[left..]
    modifies buffer
    ensures n <= len && |done'| == left + n && Copying(m, ps, goal, done', i + 1, 0, len - n)
    ensures buffer[..left + n] == done' && buffer[left + n..] == was[left + n..]
  {
    CopyTakes(m, ps, goal, done, i, offset, len);
    n := m.node[q].len - offset;
    if n > len { n := len; }
    var b := BytesOf(m.node[q])[offset..offset + n];
    Append(buffer, left, b, done, was);
    done' := done + b;
  }

  /** pbuf_copy_partial is a slice of the chain's bytes; the rest of the buffer stays. */
  method CopyPartial(m: Memory, p: Ptr, buffer: array<byte>, len0: u16, offset0: u16, ghost ps: seq<Ptr>) returns (copied: u16)
    requires m.Chain(p, ps) && len0 <= buffer.Length
    modifies buffer
    ensures var b := Slice(Flat(m.node, ps), offset0, len0);
            copied == |b| <= buffer.Length && buffer[..copied] == b && buffer[copied..] == old(buffer[copied..])
  {
    var q, len: u16, offset: u16, left: u16 := p, len0, offset0, 0;
    copied := 0;
    ghost var i, was, goal := 0, buffer[..], Slice(Flat(m.node, ps), offset0, len0);
    ghost var done: seq<byte> := [];
    assert ps[0..] == ps;
    SkipRound(m, p, ps, 0);
    while len != 0 && q != NULL
      invariant 0 <= i <= |ps| && q == Head(ps[i..]) && (q == NULL <==> i == |ps|)
      invariant Copying(m, ps, goal, done, i, offset, len)
      invariant copied == left == |done| && left + len == len0
      invariant buffer[..left] == done && buffer[left..] == was[left..]
      decreases |ps| - i
    {
      NextLink(m, p, ps, i);
      if offset != 0 && offset >= m.node[q].len {
        CopySkips(m, ps, goal, done, i, offset, len);
        offset := offset - m.node[q].len;
      } else {
        var n;
        n, done := CopyPart(m, q, buffer, left, offset, len, ps, i, goal, done, was);
        copied := copied + n;
        left := left + n;
        len := len - n;
        offset := 0;
      }
      q := m.next[q];
      i := i + 1;
    }
    CopyDone(m, ps, goal, done, i, offset, len);
  }

  lemma {:induction false} CopyDone(m: Memory, ps: seq<Ptr>, goal: seq<byte>, done: seq<byte>, i: nat, offset: nat, len: nat)
    requires AllIn(m.node, ps) && Copying(m, ps, goal, done, i, offset, len) && (len == 0 || i == |ps|)
    ensures goal == done
  {
    assert Slice(Flat(m.node, ps[i..]), offset, len) == [];
  }

  // ---- pbuf_memcmp and pbuf_memfind -------------------------------------------------------------

  lemma {:induction false} MatchesBehind(a: seq<byte>, c: seq<byte>, s: seq<byte>, i: nat, k: nat, j: nat)
    requires Matches(c, s, i, k) && j == |a| + i
    ensures Matches(a + c, s, j, k)
    ensures DiffersAt(c, s, i, k) ==> DiffersAt(a + c, s, j, k)
  {
    assert (a + c)[|a| + i..|a| + i + k] == c[i..i + k];
  }

  /** The loop of pbuf_memcmp: `k` bytes are equal. */
  method Compare(m: Memory, q: Ptr, start: u16, s: seq<byte>, ghost qs: seq<Ptr>) returns (k: nat)
    requires m.Chain(q, qs) && start + |s| <= |Flat(m.node, qs)| && start + |s| < 0x1_0000
    ensures Matches(Flat(m.node, qs), s, start, k) && (k < |s| ==> DiffersAt(Flat(m.node, qs), s, start, k))
  {
    k := 0;
    while k < |s|
      invariant Matches(Flat(m.node, qs), s, start, k)
    {
      MatchesNext(Flat(m.node, qs), s, start, k);
      var a := GetAt(m, q, Low16(start + k), qs);
      if a != s[k] { return; }
      k := k + 1;
    }
  }

  lemma {:induction false} EnoughBehind(m: Memory, p: Ptr, ps: seq<Ptr>, offset: nat, k: nat, left: nat)
    requires m.Chain(p, ps) && SkippedTo(m, ps, offset, k, left)
    ensures m.Chain(Head(ps[k..]), ps[k..])
    ensures Flat(m.node, ps) == Flat(m.node, ps[..k]) + Flat(m.node, ps[k..])
  {
    ListSuffix(m.next, p, ps, k);
    FlatSplit(m.node, ps, k);
  }

  /** pbuf_memcmp: 0 if `s` is found at `offset`, else one more than the index of the first
      difference; 0xFFFF if the chain is too short. */
  method MemCmp(m: Memory, p: Ptr, offset: u16, s: seq<byte>, ghost ps: seq<Ptr>) returns (r: u16)
    requires m.Chain(p, ps) && ps != [] && Totals(m.node, ps) && |Flat(m.node, ps)| < 0x1_0000 && |s| < 0x1_0000
    ensures var b := Flat(m.node, ps);
            if |b| < offset + |s| then r == 0xFFFF
            else if r == 0 then Matches(b, s, offset, |s|)
            else DiffersAt(b, s, offset, r - 1)
  {
    ghost var b := Flat(m.node, ps);
    assert m.node[p].totLen == |b| by { assert TotalAt(m.node, ps, 0) && ps[0..] == ps; }
    if m.node[p].totLen < offset + |s| { return 0xFFFF; }
    var q, start;
    ghost var k;
    q, start, k := Skip(m, p, offset, ps);
    EnoughBehind(m, p, ps, offset, k, start);
    var i := Compare(m, q, start, s, ps[k..]);
    MatchesBehind(Flat(m.node, ps[..k]), Flat(m.node, ps[k..]), s, start, i, offset);
    if i == |s| { return 0; }
    return if i + 1 < 0xFFFF then i + 1 else 0xFFFF;
  }

  /** pbuf_memfind: the first occurrence at or behind `start`.  0xFFFF tells that there is none,
      except exactly for an empty pattern that is looked for behind 0xFFFF bytes. */
  method MemFind(m: Memory, p: Ptr, s: seq<byte>, start: u16, ghost ps: seq<Ptr>) returns (r: u16)
    requires m.Chain(p, ps) && ps != [] && Totals(m.node, ps) && |Flat(m.node, ps)| < 0x1_0000 && |s| < 0x1_0000
    ensures var b := Flat(m.node, ps);
            && (forall i :: start <= i < r ==> !OccursAt(b, s, i))
            && (r != NOT_FOUND ==> start <= r && OccursAt(b, s, r))
            && (r == NOT_FOUND && (exists i :: start <= i && OccursAt(b, s, i)) <==> s == [] && |b| == start == 0xFFFF)
  {
    ghost var b := Flat(m.node, ps);
    assert m.node[p].totLen == |b| by { assert TotalAt(m.node, ps, 0) && ps[0..] == ps; }
    var last := Low16(m.node[p].totLen - |s|);
    if m.node[p].totLen >= |s| + start {
      var i := start;
      while i <= last
        invariant start <= i && (i as int) - 1 <= last && forall j :: start <= j < i ==> !OccursAt(b, s, j)
      {
        var plus := MemCmp(m, p, i, s, ps);
        Occurrence(b, s, i, plus);
        if plus == 0 {
          assert s == [] ==> OccursAt(b, s, start);
          return i;
        }
        assert i < 0xFFFF;
        i := Low16(i + 1);
      }
    }
    return NOT_FOUND;
  }
}
