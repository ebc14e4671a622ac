/** The bytes a chain of pbufs stands for, and its `tot_len` fields. */
module PbufBytes {
  import opened Bytes
  import opened Lists

  /** Where the memory of a pbuf comes from: the heap, the pbuf pool, or somebody else. */
  datatype Kind = Ram | Pool | Reference

  /** The fields of `struct pbuf` other than `next` and `ref`.  `buffer` is the memory that
      belongs to the pbuf and `payload` an offset into it. */
  datatype NodeRecord = Node(len: u16, totLen: u16, payload: nat, buffer: seq<byte>, kind: Kind, fin: bool)

  type Node = n: NodeRecord | n.payload + n.len <= |n.buffer| witness Node(0, 0, 0, [], Pool, false)

  function BytesOf(n: Node): (b: seq<byte>)
    ensures |b| == n.len
  {
    n.buffer[n.payload..n.payload + n.len]
  }

  /** MEMCPY of `b` to offset `at` of the payload. */
  function Write(n: Node, at: nat, b: seq<byte>): (n': Node)
    requires at + |b| <= n.len
    ensures n' == n.(buffer := n'.buffer)
    ensures BytesOf(n') == BytesOf(n)[..at] + b + BytesOf(n)[at + |b|..]
  {
    var i := n.payload + at;
    var buffer := n.buffer[..i] + b + n.buffer[i + |b|..];
    assert buffer[n.payload..n.payload + n.len] == BytesOf(n)[..at] + b + BytesOf(n)[at + |b|..] by {
      assert BytesOf(n)[..at] == n.buffer[n.payload..i];
      assert BytesOf(n)[at + |b|..] == n.buffer[i + |b|..n.payload + n.len];
    }
    n.(buffer := buffer)
  }

  type Nodes = map<Ptr, Node>

  ghost predicate AllIn(m: Nodes, ps: seq<Ptr>) {
    forall p :: p in ps ==> p in m
  }

  /** The payload bytes of a chain, end to end. */
  ghost function Flat(m: Nodes, ps: seq<Ptr>): seq<byte>
    requires AllIn(m, ps)
  {
    if ps == [] then [] else BytesOf(m[ps[0]]) + Flat(m, ps[1..])
  }

  /** The `tot_len` of link `k` tells how many bytes follow from there on, in 16 bits. */
  ghost predicate TotalAt(m: Nodes, ps: seq<Ptr>, k: nat)
    requires AllIn(m, ps) && k < |ps|
  {
    m[ps[k]].totLen == Low16(|Flat(m, ps[k..])|)
  }

  ghost predicate Totals(m: Nodes, ps: seq<Ptr>)
    requires AllIn(m, ps)
  {
    forall k {:trigger TotalAt(m, ps, k)} :: 0 <= k < |ps| ==> TotalAt(m, ps, k)
  }

  lemma {:induction false} FlatConcat(m: Nodes, ps: seq<Ptr>, qs: seq<Ptr>)
    requires AllIn(m, ps) && AllIn(m, qs)
    ensures AllIn(m, ps + qs) && Flat(m, ps + qs) == Flat(m, ps) + Flat(m, qs)
    decreases |ps|
  {
    if ps == [] {
      assert ps + qs == qs;
    } else {
      FlatConcat(m, ps[1..], qs);
      assert (ps + qs)[1..] == ps[1..] + qs;
      assert (ps + qs)[0] == ps[0];
    }
  }

  lemma {:induction false} FlatSplit(m: Nodes, ps: seq<Ptr>, k: nat)
    requires AllIn(m, ps) && k <= |ps|
    ensures Flat(m, ps) == Flat(m, ps[..k]) + Flat(m, ps[k..])
  {
    FlatConcat(m, ps[..k], ps[k..]);
    assert ps == ps[..k] + ps[k..];
  }

  /** Going on by one link. */
  lemma {:induction false} FlatStep(m: Nodes, ps: seq<Ptr>, k: nat)
    requires AllIn(m, ps) && k < |ps|
    ensures Flat(m, ps[k..]) == BytesOf(m[ps[k]]) + Flat(m, ps[k + 1..])
    ensures Flat(m, ps[..k + 1]) == Flat(m, ps[..k]) + BytesOf(m[ps[k]])
  {
    assert ps[k..][1..] == ps[k + 1..];
    FlatConcat(m, ps[..k], [ps[k]]);
    assert ps[..k + 1] == ps[..k] + [ps[k]];
    assert [ps[k]][1..] == [];
    assert Flat(m, [ps[k]]) == BytesOf(m[ps[k]]);
  }

  lemma {:induction false} FlatGrows(m: Nodes, ps: seq<Ptr>, i: nat, j: nat)
    requires AllIn(m, ps) && i <= j <= |ps|
    ensures |Flat(m, ps[..i])| <= |Flat(m, ps[..j])|
  {
    FlatSplit(m, ps[..j], i);
    assert ps[..j][..i] == ps[..i];
  }

  lemma {:induction false} FlatFrame(m: Nodes, m': Nodes, ps: seq<Ptr>)
    requires AllIn(m, ps) && AllIn(m', ps)
    requires forall p :: p in ps ==> BytesOf(m'[p]) == BytesOf(m[p])
    ensures Flat(m', ps) == Flat(m, ps)
    decreases |ps|
  {
    if ps != [] { FlatFrame(m, m', ps[1..]); }
  }

  lemma {:induction false} TotalsFrame(m: Nodes, m': Nodes, ps: seq<Ptr>)
    requires AllIn(m, ps) && AllIn(m', ps) && Totals(m, ps)
    requires forall p :: p in ps ==> BytesOf(m'[p]) == BytesOf(m[p]) && m'[p].totLen == m[p].totLen
    ensures Totals(m', ps)
  {
    forall k | 0 <= k < |ps| ensures TotalAt(m', ps, k) {
      assert TotalAt(m, ps, k);
      FlatFrame(m, m', ps[k..]);
    }
  }

  lemma {:induction false} TotalsSuffix(m: Nodes, ps: seq<Ptr>, i: nat)
    requires AllIn(m, ps) && Totals(m, ps) && i <= |ps|
    ensures Totals(m, ps[i..])
  {
    forall k | 0 <= k < |ps[i..]| ensures TotalAt(m, ps[i..], k) {
      assert TotalAt(m, ps, i + k);
      assert ps[i..][k..] == ps[i + k..];
    }
  }

  /** `m'` keeps the bytes of `ps` and adds `n` to the `tot_len` fields. */
  ghost predicate Shifted(m: Nodes, m': Nodes, ps: seq<Ptr>, n: int) {
    AllIn(m, ps) && AllIn(m', ps) && forall p :: p in ps ==> BytesOf(m'[p]) == BytesOf(m[p]) && m'[p].totLen == Low16(m[p].totLen + n)
  }

  /** Appending a chain: every `tot_len` in front grows by what was appended. */
  lemma {:induction false} TotalsConcat(m: Nodes, m': Nodes, hs: seq<Ptr>, ts: seq<Ptr>)
    requires AllIn(m, hs) && AllIn(m, ts) && Shifted(m, m', hs, |Flat(m, ts)|)
    requires AllIn(m', ts) && forall p :: p in ts ==> m'[p] == m[p]
    requires Totals(m, hs) && Totals(m, ts)
    ensures Totals(m', hs + ts)
  {
    var ps := hs + ts;
    forall k | 0 <= k < |ps| ensures TotalAt(m', ps, k) {
      if k < |hs| {
        assert ps[k..] == hs[k..] + ts;
        FlatConcat(m', hs[k..], ts);
        FlatFrame(m, m', hs[k..]);
        FlatFrame(m, m', ts);
        assert TotalAt(m, hs, k);
        Low16Plus(|Flat(m, hs[k..])|, |Flat(m, ts)|);
      } else {
        assert ps[k..] == ts[k - |hs|..];
        FlatFrame(m, m', ts[k - |hs|..]);
        assert TotalAt(m, ts, k - |hs|);
      }
    }
  }

  /** Cutting a chain off: every `tot_len` in front shrinks by what was cut off. */
  lemma {:induction false} TotalsCutOff(m: Nodes, m': Nodes, hs: seq<Ptr>, ts: seq<Ptr>)
    requires AllIn(m, hs) && AllIn(m, ts) && Shifted(m, m', hs, -|Flat(m, ts)|)
    requires AllIn(m, hs + ts) && Totals(m, hs + ts)
    ensures Totals(m', hs)
  {
    forall k | 0 <= k < |hs| ensures TotalAt(m', hs, k) {
      assert (hs + ts)[k..] == hs[k..] + ts;
      FlatConcat(m, hs[k..], ts);
      FlatFrame(m, m', hs[k..]);
      assert TotalAt(m, hs + ts, k);
      Low16Plus(|Flat(m, hs[k..] + ts)|, -|Flat(m, ts)|);
    }
  }
}
