/** tcp_process_refused_data of lwip/core/tcp.c, seen from the bytes. */
module RefusedData {
  // A chain that the application refused, possibly of more than 65535 bytes, is offered to it again
  // in pieces.

  import opened Bytes
  import opened Errors
  import opened Lists
  import opened PbufBytes
  import opened PbufMemory
  import opened PbufResize
  import opened Pbuf
  import ReceiveWindow

  /** What the receive callback does with a piece: take it, and maybe deallocate it at once;
      refuse it; or abort the connection. */
  datatype Answer = Taken(frees: bool) | Refused | Abort

  /** The chain `ps` is held by the connection and carries `b`; only with a flag on the first link
      may others carry the FIN flag. */
  ghost predicate Holds(m: Memory, p: Ptr, ps: seq<Ptr>, b: seq<byte>, fin: bool) {
    && m.Valid() && Carries(m, p, ps, b)
    && (ps != [] ==> p in m.owners && 0 < m.owners[p] && m.node[ps[0]].fin == fin)
    && (forall x :: x in ps && m.node[x].fin ==> fin)
  }

  function Joined(pieces: seq<seq<byte>>): seq<byte> {
    if pieces == [] then [] else pieces[0] + Joined(pieces[1..])
  }

  /** The links the next piece has. */
  ghost function Front(m: Nodes, ps: seq<Ptr>): (k: nat)
    requires AllIn(m, ps)
    ensures k <= |ps|
  {
    FrontLinks(m, ps, 0)
  }

  /** The pieces that a chain is offered in. */
  ghost function PiecesOf(m: Nodes, ps: seq<Ptr>): seq<seq<byte>>
    requires AllIn(m, ps)
    decreases |ps|
  {
    if ps == [] then [] else
      FirstLinkFits(m, ps);
      [Flat(m, ps[..Front(m, ps)])] + PiecesOf(m, ps[Front(m, ps)..])
  }

  /** The pieces add up to the bytes of the chain, and none is longer than 16 bits can say. */
  lemma {:induction false} PiecesMakeUp(m: Nodes, ps: seq<Ptr>)
    requires AllIn(m, ps)
    ensures Joined(PiecesOf(m, ps)) == Flat(m, ps) && forall x :: x in PiecesOf(m, ps) ==> |x| < 0x1_0000
    decreases |ps|
  {
    if ps != [] {
      FirstLinkFits(m, ps);
      FrontFits(m, ps, 0);
      FlatSplit(m, ps, Front(m, ps));
      PiecesMakeUp(m, ps[Front(m, ps)..]);
    }
  }

  /** The pieces depend on the bytes of the links only. */
  lemma {:induction false} PiecesFrame(m: Nodes, m': Nodes, ps: seq<Ptr>)
    requires AllIn(m, ps) && AllIn(m', ps) && forall x :: x in ps ==> BytesOf(m'[x]) == BytesOf(m[x])
    ensures PiecesOf(m', ps) == PiecesOf(m, ps)
    decreases |ps|
  {
    if ps != [] {
      FirstLinkFits(m, ps);
      FrontFrame(m, m', ps, 0);
      FlatFrame(m, m', ps[..Front(m, ps)]);
      PiecesFrame(m, m', ps[Front(m, ps)..]);
    }
  }

  lemma {:induction false} FrontFrame(m: Nodes, m': Nodes, ps: seq<Ptr>, sum: u16)
    requires AllIn(m, ps) && AllIn(m', ps) && forall x :: x in ps ==> BytesOf(m'[x]) == BytesOf(m[x])
    ensures FrontLinks(m', ps, sum) == FrontLinks(m, ps, sum)
    decreases |ps|
  {
    if ps != [] {
      assert m'[ps[0]].len == |BytesOf(m[ps[0]])| == m[ps[0]].len;
      if !Wraps(sum, m[ps[0]].len) { FrontFrame(m, m', ps[1..], sum + m[ps[0]].len); }
    }
  }

  /** Every piece is taken. */
  predicate AllTaken(answers: nat -> Answer, cs: seq<seq<byte>>) {
    Takes(answers, 0, |cs|) == |cs|
  }

  /** What the application is given if it takes the first `n` pieces: these and the one that it
      does not take. */
  function Given(cs: seq<seq<byte>>, n: nat): (r: seq<seq<byte>>)
    requires n <= |cs|
    ensures r <= cs && |r| == if n < |cs| then n + 1 else n
  {
    if n < |cs| then cs[..n + 1] else cs
  }

  lemma {:induction false} OneMore(offered: seq<seq<byte>>, cs: seq<seq<byte>>, i: nat)
    requires i < |cs|
    ensures cs[i..][0] == cs[i] && cs[i..][1..] == cs[i + 1..] && |cs[i..]| == |cs| - i
    ensures offered + cs[..i] + [cs[i]] == offered + cs[..i + 1]
  {
  }

  /** The chain is held, and is to be offered in these pieces. */
  ghost predicate Held(m: Memory, p: Ptr, ps: seq<Ptr>, cs: seq<seq<byte>>, fin: bool) {
    Holds(m, p, ps, Joined(cs), fin) && PiecesOf(m.node, ps) == cs
  }

  lemma {:induction false} HeldPieces(m: Memory, p: Ptr, ps: seq<Ptr>, b: seq<byte>, fin: bool)
    requires Holds(m, p, ps, b, fin)
    ensures Held(m, p, ps, PiecesOf(m.node, ps), fin)
  {
    PiecesMakeUp(m.node, ps);
  }

  /** The first pieces are taken: how many, of `n` pieces from the `i`-th on. */
  function Takes(answers: nat -> Answer, i: nat, n: nat): (k: nat)
    requires i <= n
    ensures i <= k <= n && (k < n ==> !answers(k).Taken?) && forall j :: i <= j < k ==> answers(j).Taken?
    decreases n - i
  {
    if i < n && answers(i).Taken? then Takes(answers, i + 1, n) else i
  }

  lemma {:induction false} FrontIs(m: Memory, p: Ptr, ps: seq<Ptr>, cs: seq<seq<byte>>, fin: bool)
    requires Held(m, p, ps, cs, fin) && ps != []
    ensures 0 < Front(m.node, ps) && cs == [Flat(m.node, ps[..Front(m.node, ps)])] + PiecesOf(m.node, ps[Front(m.node, ps)..])
    ensures cs[1..] == PiecesOf(m.node, ps[Front(m.node, ps)..]) && Joined(cs[1..]) == Flat(m.node, ps[Front(m.node, ps)..])
    ensures p == ps[0] && p != NULL && p in m.next && p in m.node
  {
    FirstLinkFits(m.node, ps);
    PiecesMakeUp(m.node, ps[Front(m.node, ps)..]);
    ListNodes(m.next, p, ps);
  }

  /** After the split: the connection holds the rest, and the piece is on its own. */
  lemma {:induction false} RestHeld(m: Memory, p: Ptr, ps: seq<Ptr>, b: seq<byte>, fin: bool, k: nat, m': Memory)
    requires Holds(m, p, ps, b, fin) && 0 < k < |ps| && ps[k] in m.owners && m' == AfterSplit(m, ps, k) && m'.Valid()
    ensures Holds(m', ps[k], ps[k..], Flat(m.node, ps[k..]), fin)
  {
    SplitNodes(m, p, ps, k);
    SplitBytes(m, p, ps, k);
    SplitTotals(m, p, ps, k);
    ListNodes(m.next, p, ps);
    assert ps[k..][0] == ps[k] && ps[k] in ps;
    forall x | x in ps[k..] && m'.node[x].fin ensures fin {
      assert x in ps && ps[0] in ps;
    }
  }

  lemma {:induction false} PieceAlone(m: Memory, p: Ptr, ps: seq<Ptr>, b: seq<byte>, fin: bool, k: nat, m': Memory)
    requires Holds(m, p, ps, b, fin) && 0 < k < |ps| && ps[k] in m.owners && m' == AfterSplit(m, ps, k) && m'.Valid()
    ensures Carries(m', p, ps[..k], Flat(m.node, ps[..k])) && p in m'.owners && 0 < m'.owners[p]
  {
    SplitNodes(m, p, ps, k);
    SplitBytes(m, p, ps, k);
    SplitTotals(m, p, ps, k);
  }

  /** Deallocating the piece does not concern the rest. */
  lemma {:induction false} RestAfterFree(m: Memory, p: Ptr, hs: seq<Ptr>, r: Ptr, ts: seq<Ptr>, b: seq<byte>, fin: bool)
    requires Holds(m, r, ts, b, fin) && IsList(m.next, p, hs) && p in m.next && p in m.owners && 0 < m.owners[p] && hs != []
    requires forall x :: x in ts ==> x !in hs
    ensures Holds(AfterFree(m, p, hs), r, ts, b, fin)
  {
    var m' := AfterFree(m, p, hs);
    FreeValid(m, p, hs);
    FreeKeepsList(m, p, hs, r, ts);
    FlatFrame(m.node, m'.node, ts);
    TotalsFrame(m.node, m'.node, ts);
    ListNodes(m.next, p, hs);
    ListNodes(m.next, r, ts);
    assert ts != [] ==> r == ts[0] && r in ts && r != p;
    forall x | x in ts && m'.node[x].fin ensures fin { assert m.node[x].fin; }
  }

  /** Put together again, it is the chain it was. */
  lemma {:induction false} HeldAgain(m: Memory, p: Ptr, ps: seq<Ptr>, b: seq<byte>, fin: bool, k: nat, m': Memory)
    requires Holds(m, p, ps, b, fin) && 0 < k < |ps| && ps[k] in m.owners
    requires m' == AfterCat(AfterSplit(m, ps, k), ps[..k], ps[k]) && m'.Valid()
    ensures Holds(m', p, ps, b, fin)
  {
    CatUndoesSplit(m, p, ps, k);
    ListNodes(m.next, p, ps);
    FlagKeeps(m, p, ps, b, ps[k], FinFrom(m.node[ps[k]], m.node[ps[0]].fin));
  }

  /** The FIN flag of a pbuf is of no importance to the bytes. */
  lemma {:induction false} FlagKeeps(m: Memory, p: Ptr, ps: seq<Ptr>, b: seq<byte>, q: Ptr, n: Node)
    requires Carries(m, p, ps, b) && q in m.node && n == m.node[q].(fin := n.fin)
    ensures Carries(m.SetNode(q, n), p, ps, b)
  {
    var m' := m.SetNode(q, n);
    assert forall x :: x in ps ==> BytesOf(m'.node[x]) == BytesOf(m.node[x]);
    FlatFrame(m.node, m'.node, ps);
    TotalsFrame(m.node, m'.node, ps);
  }

  /** The chain was split: the piece and the rest have nothing in common. */
  ghost predicate Apart(m: Memory, p: Ptr, hs: seq<Ptr>, piece: seq<byte>, r: Ptr, ts: seq<Ptr>, rest: seq<byte>, fin: bool) {
    && Carries(m, p, hs, piece) && hs != [] && p in m.next && p in m.owners && 0 < m.owners[p]
    && Holds(m, r, ts, rest, fin) && ts != [] && r == ts[0] && r != NULL && (forall x :: x in ts ==> x !in hs)
    && hs[|hs| - 1] in m.node && m.node[hs[|hs| - 1]].totLen == m.node[hs[|hs| - 1]].len
  }

  lemma {:induction false} LastTotal(m: Nodes, ps: seq<Ptr>)
    requires AllIn(m, ps) && Totals(m, ps) && ps != []
    ensures ps[|ps| - 1] in m && m[ps[|ps| - 1]].totLen == m[ps[|ps| - 1]].len
  {
    assert TotalAt(m, ps, |ps| - 1);
    FlatStep(m, ps, |ps| - 1);
  }

  lemma {:induction false} SplitApart(m: Memory, p: Ptr, ps: seq<Ptr>, b: seq<byte>, fin: bool, k: nat, m': Memory)
    requires Holds(m, p, ps, b, fin) && 0 < k < |ps| && ps[k] in m.owners && m' == AfterSplit(m, ps, k) && m'.Valid()
    ensures Apart(m', p, ps[..k], Flat(m.node, ps[..k]), ps[k], ps[k..], Flat(m.node, ps[k..]), fin)
  {
    RestHeld(m, p, ps, b, fin, k, m');
    PieceAlone(m, p, ps, b, fin, k, m');
    PartsDisjoint(m.next, p, ps, k);
    LastTotal(m'.node, ps[..k]);
    ListNodes(m'.next, p, ps[..k]);
    ListNodes(m'.next, ps[k], ps[k..]);
    assert ps[k..][0] == ps[k] && ps[..k][0] == p;
  }

  lemma {:induction false} NullIsEmpty(m: Memory, p: Ptr, ps: seq<Ptr>, cs: seq<seq<byte>>, fin: bool)
    requires Held(m, p, ps, cs, fin)
    ensures (p == NULL <==> ps == []) && (ps == [] <==> cs == [])
    ensures p != NULL ==> p in m.node && m.node[p].fin == fin
  {
    ListNodes(m.next, p, ps);
  }

  /** Splitting, deallocating the piece and putting it back keep the pieces that are to come. */
  lemma {:induction false} RestPieces(m: Memory, p: Ptr, ps: seq<Ptr>, cs: seq<seq<byte>>, fin: bool, k: nat, m': Memory)
    requires Held(m, p, ps, cs, fin) && ps != [] && k == Front(m.node, ps) && k < |ps| && ps[k] in m.owners
    requires m' == AfterSplit(m, ps, k) && Holds(m', ps[k], ps[k..], Flat(m.node, ps[k..]), fin)
    ensures cs != [] && Held(m', ps[k], ps[k..], cs[1..], fin)
  {
    FrontIs(m, p, ps, cs, fin);
    SplitNodes(m, p, ps, k);
    PiecesFrame(m.node, m'.node, ps[k..]);
  }

  lemma {:induction false} PiecesAfterFree(m: Memory, p: Ptr, hs: seq<Ptr>, r: Ptr, ts: seq<Ptr>, cs: seq<seq<byte>>, fin: bool)
    requires Held(m, r, ts, cs, fin) && IsList(m.next, p, hs) && p in m.next && p in m.owners && 0 < m.owners[p] && hs != []
    requires forall x :: x in ts ==> x !in hs
    ensures Held(AfterFree(m, p, hs), r, ts, cs, fin)
  {
    RestAfterFree(m, p, hs, r, ts, Joined(cs), fin);
    FreeKeepsList(m, p, hs, r, ts);
    PiecesFrame(m.node, AfterFree(m, p, hs).node, ts);
  }

  lemma {:induction false} FlagPieces(m: Nodes, ps: seq<Ptr>, q: Ptr, n: Node)
    requires AllIn(m, ps) && q in m && n == m[q].(fin := n.fin)
    ensures AllIn(m[q := n], ps) && PiecesOf(m[q := n], ps) == PiecesOf(m, ps)
  {
    PiecesFrame(m, m[q := n], ps);
  }

  lemma {:induction false} PiecesAgain(m: Memory, p: Ptr, ps: seq<Ptr>, cs: seq<seq<byte>>, fin: bool, k: nat, m': Memory)
    requires Held(m, p, ps, cs, fin) && 0 < k < |ps| && ps[k] in m.owners
    requires m' == AfterCat(AfterSplit(m, ps, k), ps[..k], ps[k]) && m'.Valid()
    ensures Held(m', p, ps, cs, fin)
  {
    HeldAgain(m, p, ps, Joined(cs), fin, k, m');
    CatUndoesSplit(m, p, ps, k);
    FlagPieces(m.node, ps, ps[k], FinFrom(m.node[ps[k]], m.node[ps[0]].fin));
  }

  /** The next piece is split off: it is on its own, and the rest is held. */
  ghost predicate SplitOff(m: Memory, p: Ptr, hs: seq<Ptr>, r: Ptr, ts: seq<Ptr>, cs: seq<seq<byte>>, fin: bool) {
    cs != [] && Apart(m, p, hs, cs[0], r, ts, Joined(cs[1..]), fin) && Held(m, r, ts, cs[1..], fin)
  }

  lemma {:induction false} SplitsOff(m: Memory, p: Ptr, ps: seq<Ptr>, cs: seq<seq<byte>>, fin: bool, k: nat, m': Memory)
    requires Held(m, p, ps, cs, fin) && ps != [] && k == Front(m.node, ps) && k < |ps| && ps[k] in m.owners
    requires m' == AfterSplit(m, ps, k) && m'.Valid()
    ensures 0 < k && SplitOff(m', p, ps[..k], ps[k], ps[k..], cs, fin)
  {
    FrontIs(m, p, ps, cs, fin);
    SplitApart(m, p, ps, Joined(cs), fin, k, m');
    RestPieces(m, p, ps, cs, fin, k, m');
  }

  /** What tcp_process_refused_data returns after an answer to a piece. */
  function ErrOf(answer: Answer): (err: Err)
    ensures (err == Ok <==> answer.Taken?) && (err == InProgress <==> answer == Refused) && (err == Aborted <==> answer == Abort)
  {
    match answer case Taken(_) => Ok case Refused => InProgress case Abort => Aborted
  }

  class Offer {
    const pbufs: Pbufs

    /** `pcb->refused_data` and `pcb->rcv_wnd` */
    var refusedData: Ptr
    var rcvWnd: u32

    /** What the application was given, the latest last, and how often it was told of the end. */
    ghost var offered: seq<seq<byte>>
    var told: nat

    constructor (pbufs: Pbufs, refusedData: Ptr, rcvWnd: u32)
      ensures this.pbufs == pbufs && this.refusedData == refusedData && this.rcvWnd == rcvWnd && offered == [] && told == 0
    {
      this.pbufs, this.refusedData, this.rcvWnd, offered, told := pbufs, refusedData, rcvWnd, [], 0;
    }

    /** TCP_EVENT_RECV: the application is given a chain. */
    method Give(p: Ptr, ghost hs: seq<Ptr>, ghost piece: seq<byte>)
      requires Carries(pbufs.mem, p, hs, piece) && p != NULL
      modifies `offered
      ensures offered == old(offered) + [piece]
    {
      offered := offered + [piece];
    }

    /** Splits the next piece off and offers it: `qs` is the chain held before, `left` the chain
        held afterwards. */
    method OfferPiece(answer: Answer, ghost qs: seq<Ptr>, ghost cs: seq<seq<byte>>, ghost fin: bool)
      returns (err: Err, last: bool, ghost left: seq<Ptr>)
      requires Held(pbufs.mem, refusedData, qs, cs, fin) && qs != []
      modifies `refusedData, `offered, pbufs
      ensures cs != [] && offered == old(offered) + [cs[0]] && err == ErrOf(answer)
      ensures answer == Refused ==> left == qs && Held(pbufs.mem, refusedData, qs, cs, fin)
      ensures answer.Taken? ==> |left| < |qs| && (last <==> left == []) && Held(pbufs.mem, refusedData, left, cs[1..], fin)
    {
      ghost var m, k := pbufs.mem, Front(pbufs.mem.node, qs);
      FrontIs(m, refusedData, qs, cs, fin);
      left := if answer.Taken? then qs[k..] else qs;
      var refused := refusedData;
      refusedData := pbufs.Split64k(refused, qs);
      last := refusedData == NULL;
      if refusedData == NULL {
        err := AnswerWhole(answer, refused, qs, cs, fin);
      } else {
        SplitsOff(m, refused, qs, cs, fin, k, pbufs.mem);
        err := AnswerFront(answer, refused, refusedData, m, qs, cs, fin, k);
      }
    }

    /** The application answers to the last piece. */
    method AnswerWhole(answer: Answer, refused: Ptr, ghost qs: seq<Ptr>, ghost cs: seq<seq<byte>>, ghost fin: bool) returns (err: Err)
      requires Held(pbufs.mem, refused, qs, cs, fin) && qs != [] && Front(pbufs.mem.node, qs) == |qs| && refusedData == NULL
      modifies `refusedData, `offered, pbufs
      ensures cs != [] && offered == old(offered) + [cs[0]] && err == ErrOf(answer)
      ensures answer == Refused ==> Held(pbufs.mem, refusedData, qs, cs, fin)
      ensures answer.Taken? ==> Held(pbufs.mem, refusedData, [], [], fin)
    {
      FrontIs(pbufs.mem, refused, qs, cs, fin);
      assert qs[..|qs|] == qs;
      Give(refused, qs, cs[0]);
      if answer.Taken? {
        if answer.frees { var _ := pbufs.Free(refused, qs); }
        return Ok;
      }
      if answer == Abort { return Aborted; }
      refusedData := refused;
      return InProgress;
    }

    /** The application answers to a piece behind which there is a rest. */
    method AnswerFront(answer: Answer, refused: Ptr, tail: Ptr,
                       ghost m: Memory, ghost qs: seq<Ptr>, ghost cs: seq<seq<byte>>, ghost fin: bool, ghost k: nat) returns (err: Err)
      requires Held(m, refused, qs, cs, fin) && 0 < k < |qs| && qs[k] in m.owners
      requires pbufs.mem == AfterSplit(m, qs, k) && tail == qs[k] && SplitOff(pbufs.mem, refused, qs[..k], tail, qs[k..], cs, fin)
      requires refusedData == tail
      modifies `refusedData, `offered, pbufs
      ensures cs != [] && offered == old(offered) + [cs[0]] && err == ErrOf(answer)
      ensures answer == Refused ==> Held(pbufs.mem, refusedData, qs, cs, fin)
      ensures answer.Taken? ==> Held(pbufs.mem, refusedData, qs[k..], cs[1..], fin)
    {
      Give(refused, qs[..k], cs[0]);
      if answer.Taken? {
        FreePiece(answer.frees, refused, qs[..k], tail, qs[k..], cs, fin);
        return Ok;
      }
      if answer == Abort { return Aborted; }
      PutBack(refused, tail, m, qs, cs, fin, k);
      return InProgress;
    }

    /** The application may deallocate the piece at once. */
    method FreePiece(frees: bool, refused: Ptr, ghost hs: seq<Ptr>, ghost r: Ptr, ghost ts: seq<Ptr>, ghost cs: seq<seq<byte>>, ghost fin: bool)
      requires SplitOff(pbufs.mem, refused, hs, r, ts, cs, fin)
      modifies pbufs
      ensures pbufs.mem == if frees then AfterFree(old(pbufs.mem), refused, hs) else old(pbufs.mem)
      ensures cs != [] && Held(pbufs.mem, r, ts, cs[1..], fin)
    {
      if frees {
        PiecesAfterFree(pbufs.mem, refused, hs, r, ts, cs[1..], fin);
        var _ := pbufs.Free(refused, hs);
      }
    }

    /** The piece is put in front of the rest again. */
    method PutBack(refused: Ptr, tail: Ptr, ghost m: Memory, ghost qs: seq<Ptr>, ghost cs: seq<seq<byte>>, ghost fin: bool, ghost k: nat)
      requires Held(m, refused, qs, cs, fin) && 0 < k < |qs| && qs[k] in m.owners
      requires pbufs.mem == AfterSplit(m, qs, k) && tail == qs[k] && SplitOff(pbufs.mem, refused, qs[..k], tail, qs[k..], cs, fin)
      modifies `refusedData, pbufs
      ensures Held(pbufs.mem, refusedData, qs, cs, fin)
    {
      ghost var hs, ts := qs[..k], qs[k..];
      assert hs[|hs| - 1] in hs;
      pbufs.Cat(refused, tail, hs, ts);
      PiecesAgain(m, refused, qs, cs, fin, k, pbufs.mem);
      refusedData := refused;
    }

    /** One round: a piece is offered, and behind the last one the end of the stream. */
    method Round(answer: Answer, endAborts: bool, ghost qs: seq<Ptr>, ghost cs: seq<seq<byte>>, ghost fin: bool)
      returns (err: Err, ghost left: seq<Ptr>)
      requires Held(pbufs.mem, refusedData, qs, cs, fin) && refusedData != NULL
      modifies this, pbufs
      ensures cs != [] && offered == old(offered) + [cs[0]]
      ensures var atEnd := answer.Taken? && fin && |cs| == 1;
              && Ended(old(told), old(rcvWnd), atEnd)
              && err == if atEnd && endAborts then Aborted else ErrOf(answer)
      ensures answer == Refused ==> left == qs && Held(pbufs.mem, refusedData, qs, cs, fin)
      ensures answer.Taken? ==> |left| < |qs| && Held(pbufs.mem, refusedData, left, cs[1..], fin) && (refusedData == NULL <==> |cs| == 1)
    {
      var last;
      NullIsEmpty(pbufs.mem, refusedData, qs, cs, fin);
      var finBefore := pbufs.mem.node[refusedData].fin;
      err, last, left := OfferPiece(answer, qs, cs, fin);
      if err == Ok {
        NullIsEmpty(pbufs.mem, refusedData, left, cs[1..], fin);
        if finBefore && last {
          if rcvWnd != ReceiveWindow.TCP_WND { rcvWnd := Low32(rcvWnd + 1); }
          told := told + 1;
          if endAborts { err := Aborted; }
        }
      }
    }

    /** The application was told of the end of the stream if there is one. */
    ghost predicate Ended(told0: nat, rcvWnd0: u32, atEnd: bool)
      reads this
    {
      && told == told0 + (if atEnd then 1 else 0)
      && rcvWnd == if atEnd && rcvWnd0 != ReceiveWindow.TCP_WND then Low32(rcvWnd0 + 1) else rcvWnd0
    }

    /** tcp_process_refused_data.  `answers` says what the callback does with the i-th piece, and
        `endAborts` whether it aborts the connection when told of the end of the stream. */
    method Process(answers: nat -> Answer, endAborts: bool, ghost ps: seq<Ptr>, ghost cs: seq<seq<byte>>, ghost fin: bool)
      returns (err: Err, ghost left: seq<Ptr>)
      requires Held(pbufs.mem, refusedData, ps, cs, fin)
      modifies this, pbufs
      ensures offered == old(offered) + Given(cs, Takes(answers, 0, |cs|))
      ensures Ended(old(told), old(rcvWnd), AllTaken(answers, cs) && fin && cs != [])
      ensures err == if !AllTaken(answers, cs) then ErrOf(answers(Takes(answers, 0, |cs|))) else if fin && cs != [] && endAborts then Aborted else Ok
      ensures AllTaken(answers, cs) ==> refusedData == NULL
      ensures err == InProgress ==> Held(pbufs.mem, refusedData, left, cs[Takes(answers, 0, |cs|)..], fin)
    {
      var i := 0;
      left := ps;
      NullIsEmpty(pbufs.mem, refusedData, ps, cs, fin);
      assert cs[0..] == cs;
      while refusedData != NULL
        invariant i <= |cs| && Takes(answers, 0, |cs|) == Takes(answers, i, |cs|)
        invariant offered == old(offered) + cs[..i] && Held(pbufs.mem, refusedData, left, cs[i..], fin)
        invariant refusedData == NULL <==> i == |cs|
        invariant Ended(old(told), old(rcvWnd), i == |cs| && fin && cs != []) && (i == |cs| && fin && cs != [] ==> !endAborts)
        decreases |cs| - i
      {
        OneMore(old(offered), cs, i);
        err, left := Round(answers(i), endAborts, left, cs[i..], fin);
        if err != Ok { return; }
        i := i + 1;
      }
      err := Ok;
    }
  }
}
