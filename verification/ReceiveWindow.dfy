/** The receive window of lwip/core/tcp.c. */
module ReceiveWindow {
  // It is used in lwip/core/tcp_in.c and lwip/core/tcp_out.c, too.  Sequence numbers have 32 bits;
  // `n` and `e` count on.

  import opened Bytes

  const TCP_WND: nat := 65535
  const TCP_MSS: nat := 9000
  const HALF: int := 0x8000_0000

  /** TCP_WND_UPDATE_THRESHOLD */
  const UPDATE_THRESHOLD: nat := if TCP_WND / 4 < TCP_MSS * 4 then TCP_WND / 4 else TCP_MSS * 4

  /** TCP_SEQ_GEQ: the difference is not negative as a signed number. */
  predicate SeqGeq(a: u32, b: u32) {
    Low32(a - b) < HALF
  }

  /** TCP_SEQ_GT */
  predicate SeqGt(a: u32, b: u32) {
    0 < Low32(a - b) < HALF
  }

  /** Comparison by signed difference is right for numbers less than 2^31 apart. */
  lemma {:induction false} Comparisons(x: int, y: int)
    requires -HALF < x - y < HALF
    ensures SeqGeq(Low32(x), Low32(y)) <==> x >= y
    ensures SeqGt(Low32(x), Low32(y)) <==> x > y
    ensures x >= y ==> Low32(Low32(x) - Low32(y)) == x - y
  {
    Low32Minus(x, y);
    assert x < y ==> Low32(x - y) == x - y + 0x1_0000_0000;
  }

  /** The fields of struct tcp_pcb that belong to the window. */
  datatype Window = Window(rcvNxt: u32, rcvWnd: u32, rcvAnnWnd: u32, rcvAnnRightEdge: u32, mss: u16)

  /** The window opens in steps of at least this many bytes. */
  function LeastStep(w: Window): nat {
    if TCP_WND / 2 < w.mss then TCP_WND / 2 else w.mss
  }

  /** `n` bytes were received, and `e` were announced at most. */
  ghost predicate Counts(w: Window, n: nat, e: nat) {
    && w.rcvNxt == Low32(n) && w.rcvAnnRightEdge == Low32(e)
    && w.rcvWnd <= TCP_WND && e <= n + w.rcvWnd && n + w.rcvWnd - e < HALF - TCP_WND
  }

  /** What the next segment will announce as right edge: the edge of the buffer, if that opens the
      window far enough; the edge announced last, or the bytes received if these are more. */
  ghost predicate Announces(w: Window, n: nat, e: nat) {
    var a := n + w.rcvAnnWnd;
    && e <= a <= n + w.rcvWnd
    && (a == e || (e < a == n) || e + LeastStep(w) <= a)
  }

  /** A segment that was sent: the edge it announces, the bytes received, the edge of the buffer. */
  datatype Ack = Ack(edge: nat, received: nat, buffer: nat)

  /** From one segment to the next the edge stays, or opens far enough, or the peer has sent more
      than was announced. */
  ghost predicate Follows(a: Ack, b: Ack, least: nat) {
    a.edge <= b.edge && (b.edge == a.edge || b.edge == b.received || a.edge + least <= b.edge)
  }

  lemma {:induction false} Emitted(w: Window, n: nat, e: nat)
    requires Counts(w, n, e) && Announces(w, n, e)
    ensures var e', w' := n + w.rcvAnnWnd, w.(rcvAnnRightEdge := Low32(w.rcvNxt + w.rcvAnnWnd));
            Counts(w', n, e') && Announces(w', n, e') && w'.rcvAnnRightEdge == Low32(e')
  {
    Low32Plus(n, w.rcvAnnWnd);
  }

  /** The edges never move left, never go beyond the buffer, and open far enough. */
  ghost predicate History(acks: seq<Ack>, e: nat, least: nat) {
    && 0 < |acks| && acks[|acks| - 1].edge == e
    && (forall i :: 0 <= i < |acks| ==> acks[i].received <= acks[i].edge <= acks[i].buffer)
    && (forall i, j :: 0 <= i < j < |acks| ==> acks[i].edge <= acks[j].edge)
    && (forall i :: 0 < i < |acks| ==> Follows(acks[i - 1], acks[i], least))
  }

  lemma {:induction false} HistoryGrows(acks: seq<Ack>, e: nat, least: nat, a: Ack)
    requires History(acks, e, least) && e <= a.edge <= a.buffer && a.received <= a.edge && (a.edge == e || a.edge == a.received || e + least <= a.edge)
    ensures History(acks + [a], a.edge, least)
  {
    var acks' := acks + [a];
    forall i | 0 < i < |acks'| ensures Follows(acks'[i - 1], acks'[i], least) {}
  }

  class Receiver {
    var w: Window
    ghost var n: nat
    ghost var e: nat

    /** The segments sent, the last one at the end. */
    ghost var acks: seq<Ack>

    ghost predicate Valid()
      reads this
    {
      Counts(w, n, e) && Announces(w, n, e) && History(acks, e, LeastStep(w))
    }

    /** The connection starts: nothing has been announced for these sequence numbers. */
    constructor (rcvNxt: u32, mss: u16)
      ensures Valid() && n == e == rcvNxt && w == Window(rcvNxt, TCP_WND, TCP_WND, rcvNxt, mss) && acks == [Ack(rcvNxt, rcvNxt, rcvNxt + TCP_WND)]
    {
      w := Window(rcvNxt, TCP_WND, TCP_WND, rcvNxt, mss);
      n, e := rcvNxt, rcvNxt;
      acks := [Ack(rcvNxt, rcvNxt, rcvNxt + TCP_WND)];
    }

    /** tcp_update_rcv_ann_wnd: returns by how much a segment sent now would open the window. */
    method UpdateAnnWnd() returns (inflation: u32)
      requires Counts(w, n, e)
      modifies `w
      ensures w == old(w).(rcvAnnWnd := w.rcvAnnWnd) && Announces(w, n, e)
      ensures inflation == if e + LeastStep(w) <= n + w.rcvWnd then n + w.rcvWnd - e else 0
      ensures 0 < inflation ==> w.rcvAnnWnd == w.rcvWnd
      ensures 0 < w.mss ==> (0 < inflation <==> e + w.mss <= n + w.rcvWnd || e + TCP_WND / 2 <= n + w.rcvWnd)
    {
      Low32Plus(n, w.rcvWnd);
      Low32Plus(e, LeastStep(w));
      Comparisons(n + w.rcvWnd, e + LeastStep(w));
      Comparisons(n + w.rcvWnd, e);
      var newRightEdge := Low32(w.rcvNxt + w.rcvWnd);
      if SeqGeq(newRightEdge, Low32(w.rcvAnnRightEdge + LeastStep(w))) {
        w := w.(rcvAnnWnd := w.rcvWnd);
        return Low32(newRightEdge - w.rcvAnnRightEdge);
      }
      KeepEdge();
      return 0;
    }

    /** The right edge stays where it is, or is left behind by what the peer has sent. */
    method KeepEdge()
      requires Counts(w, n, e) && n + w.rcvWnd < e + LeastStep(w)
      modifies `w
      ensures w == old(w).(rcvAnnWnd := w.rcvAnnWnd) && Announces(w, n, e)
    {
      Comparisons(n, e);
      Comparisons(e, n);
      if SeqGt(w.rcvNxt, w.rcvAnnRightEdge) {
        w := w.(rcvAnnWnd := 0);
      } else {
        w := w.(rcvAnnWnd := Low32(w.rcvAnnRightEdge - w.rcvNxt));
      }
    }

    /** tcp_receive: `len` bytes that fit into the buffer arrive in order. */
    method Arrive(len: nat)
      requires Valid() && len <= w.rcvWnd
      modifies this
      ensures Valid() && n == old(n) + len && w.rcvWnd == old(w.rcvWnd) - len && e == old(e) && acks == old(acks)
    {
      Low32Plus(n, len);
      n := n + len;
      w := w.(rcvNxt := Low32(w.rcvNxt + len), rcvWnd := w.rcvWnd - len);
      var _ := UpdateAnnWnd();
    }

    /** tcp_recved: the application took `len` bytes.  Returns whether a segment is to be sent at
        once.  Sequence numbers must not run 2^31 ahead of the last one sent. */
    method Recved(len: u16) returns (ackNow: bool)
      requires Valid() && n + TCP_WND - e < HALF - TCP_WND
      modifies this
      ensures Valid() && n == old(n) && e == old(e) && acks == old(acks)
      ensures w.rcvWnd == if old(w.rcvWnd) + len < TCP_WND then old(w.rcvWnd) + len else TCP_WND
      ensures ackNow <==> (e + w.mss <= n + w.rcvWnd || e + TCP_WND / 2 <= n + w.rcvWnd) && (e + TCP_WND / 4 <= n + w.rcvWnd || e + 4 * TCP_MSS <= n + w.rcvWnd)
    {
      var rcvWnd := Low32(w.rcvWnd + len);
      if rcvWnd > TCP_WND || rcvWnd < w.rcvWnd {
        w := w.(rcvWnd := TCP_WND);
      } else {
        w := w.(rcvWnd := rcvWnd);
      }
      var inflation := UpdateAnnWnd();
      ackNow := inflation >= UPDATE_THRESHOLD;
    }

    /** The FIN takes a sequence number that the application will never report as taken. */
    method CorrectForFin()
      requires Valid() && n + w.rcvWnd + 1 - e < HALF - TCP_WND
      modifies this
      ensures Valid() && n == old(n) && e == old(e) && acks == old(acks)
      ensures w.rcvWnd == if old(w.rcvWnd) == TCP_WND then TCP_WND else old(w.rcvWnd) + 1
    {
      if w.rcvWnd != TCP_WND {
        w := w.(rcvWnd := w.rcvWnd + 1);
      }
    }

    /** tcp_output_segment and tcp_output_alloc_header: a segment with ACK is sent. */
    method Emit()
      requires Valid()
      modifies this
      ensures Valid() && n == old(n) && e == old(n + w.rcvAnnWnd) && w == old(w).(rcvAnnRightEdge := Low32(e))
      ensures old(e) <= e <= n + w.rcvWnd && acks == old(acks) + [Ack(e, n, n + w.rcvWnd)]
      ensures e == old(e) || e == n || old(e) + w.mss <= e || old(e) + TCP_WND / 2 <= e
    {
      Emitted(w, n, e);
      ghost var a := Ack(n + w.rcvAnnWnd, n, n + w.rcvWnd);
      HistoryGrows(acks, e, LeastStep(w), a);
      e := a.edge;
      w := w.(rcvAnnRightEdge := Low32(w.rcvNxt + w.rcvAnnWnd));
      acks := acks + [a];
    }
  }

  // ---- window scaling ---------------------------------------------------------------------------

  function Power(scale: nat): (p: nat)
    ensures 0 < p
  {
    if scale == 0 then 1 else 2 * Power(scale - 1)
  }

  /** The edge a peer computes from the header: the window is cut to a multiple of 2^scale. */
  function EdgeOnWire(a: Ack, scale: nat): int
    requires a.received <= a.edge
  {
    a.edge - (a.edge - a.received) % Power(scale)
  }

  /** It is less than 2^scale bytes below the edge that the stack remembers. */
  lemma {:induction false} EdgeOnWireIsClose(a: Ack, scale: nat)
    requires a.received <= a.edge
    ensures EdgeOnWire(a, scale) <= a.edge < EdgeOnWire(a, scale) + Power(scale)
    ensures scale == 0 ==> EdgeOnWire(a, scale) == a.edge
  {
  }

  /** Segment `b` after `a`, with an edge further right by `d`. */
  predicate Steps(a: Ack, b: Ack, d: nat) {
    a.received <= a.edge && a.received <= b.received <= b.edge && b.edge == a.edge + d
  }

  /** From one segment to the next a step of 2^scale - 1 bytes is the least that keeps the edge on
      the wire from moving left, whatever arrived. */
  lemma {:induction false} LeastSafeStep(d: nat, scale: nat)
    ensures (forall a, b :: Steps(a, b, d) ==> EdgeOnWire(a, scale) <= EdgeOnWire(b, scale)) <==> Power(scale) - 1 <= d
  {
    if d < Power(scale) - 1 {
      SmallStepMovesLeft(d, scale);
    } else {
      forall a, b | Steps(a, b, d) ensures EdgeOnWire(a, scale) <= EdgeOnWire(b, scale) {
        EdgeOnWireIsClose(a, scale);
        EdgeOnWireIsClose(b, scale);
      }
    }
  }

  lemma {:induction false} SmallStepMovesLeft(d: nat, scale: nat)
    requires d < Power(scale) - 1
    ensures var p := Power(scale);
            var a, b := Ack(p, 0, p), Ack(p + d, d + 1, p + d);
            Steps(a, b, d) && EdgeOnWire(b, scale) < EdgeOnWire(a, scale)
  {
    var p := Power(scale);
    Remainder(p, 1, 0);
    Remainder(p, 0, p - 1);
  }

  /** No segment of the history announces less than one before, as a peer sees it. */
  ghost predicate NeverLeft(acks: seq<Ack>, scale: nat)
    requires forall i :: 0 <= i < |acks| ==> acks[i].received <= acks[i].edge
  {
    forall i, j :: 0 <= i < j < |acks| ==> EdgeOnWire(acks[i], scale) <= EdgeOnWire(acks[j], scale)
  }

  /** Without scaling this holds in every run. */
  lemma {:induction false} UnscaledNeverLeft(acks: seq<Ack>, e: nat, least: nat)
    requires History(acks, e, least)
    ensures NeverLeft(acks, 0)
  {
    forall i, j | 0 <= i < j < |acks| ensures EdgeOnWire(acks[i], 0) <= EdgeOnWire(acks[j], 0) {
      EdgeOnWireIsClose(acks[i], 0);
      EdgeOnWireIsClose(acks[j], 0);
    }
  }

  lemma {:induction false} PowersMultiply(a: nat, b: nat)
    ensures Power(a) * Power(b) == Power(a + b)
    decreases b
  {
    if 0 < b {
      PowersMultiply(a, b - 1);
      assert Power(a) * (2 * Power(b - 1)) == 2 * (Power(a) * Power(b - 1));
    }
  }

  lemma {:induction false} PowerIs()
    ensures Power(16) == 0x1_0000
  {
    assert Power(16) == 2 * Power(15) == 4 * Power(14) == 8 * Power(13) == 16 * Power(12) == 32 * Power(11) == 64 * Power(10) == 128 * Power(9);
    assert Power(9) == 2 * Power(8) == 4 * Power(7) == 8 * Power(6) == 16 * Power(5) == 32 * Power(4) == 64 * Power(3) == 128 * Power(2);
    assert Power(2) == 2 * Power(1) == 4;
  }

  /** 2^scale divides 2^16. */
  lemma {:induction false} Windows(scale: nat)
    requires 1 <= scale <= 15
    ensures 2 <= Power(scale) <= 0x8000
    ensures TCP_WND % Power(scale) == Power(scale) - 1 && (TCP_WND - (Power(scale) - 1)) % Power(scale) == 0
  {
    PowersMultiply(scale, 16 - scale);
    PowerIs();
    assert Power(scale) == 2 * Power(scale - 1) && Power(16 - scale) == 2 * Power(15 - scale);
    Divides(Power(scale), Power(16 - scale), TCP_WND);
  }

  lemma {:induction false} Divides(p: nat, q: nat, w: nat)
    requires 2 <= p && 2 <= q && p * q == w + 1
    ensures 2 * p <= w + 1 && w % p == p - 1 && (w - (p - 1)) % p == 0
  {
    Multiples(2, q, p);
    assert p * (q - 1) == p * q - p;
    Remainder(p, q - 1, p - 1);
    Remainder(p, q - 1, 0);
  }

  /** The window is announced, `p - 1` bytes arrive and are acknowledged, and then one more. */
  method TwoArrivals(p: nat, mss: u16) returns (r: Receiver)
    requires 2 <= p <= 0x8000 && 0 < mss
    ensures fresh(r) && r.Valid()
    ensures r.acks == [Ack(0, 0, TCP_WND), Ack(TCP_WND, 0, TCP_WND), Ack(TCP_WND, p - 1, TCP_WND), Ack(TCP_WND, p, TCP_WND)]
  {
    r := new Receiver(0, mss);
    r.Emit();
    r.Arrive(p - 1);
    r.Emit();
    r.Arrive(1);
    r.Emit();
  }

  /** With scaling there is a run in which the edge moves left: 2^scale - 1 bytes arrive, so that
      the window is a multiple of 2^scale, and then one more. */
  method ScaledEdgeMovesLeft(scale: nat, mss: u16) returns (r: Receiver)
    requires 1 <= scale <= 15 && 0 < mss
    ensures fresh(r) && r.Valid() && |r.acks| == 4 && forall i :: 0 <= i < |r.acks| ==> r.acks[i].received <= r.acks[i].edge
    ensures EdgeOnWire(r.acks[3], scale) < EdgeOnWire(r.acks[2], scale) && !NeverLeft(r.acks, scale)
  {
    Windows(scale);
    var p := Power(scale);
    r := TwoArrivals(p, mss);
    OneLess(TCP_WND - (p - 1), p);
  }

  lemma {:induction false} OneLess(w: nat, p: nat)
    requires 2 <= p <= w && w % p == 0
    ensures (w - 1) % p == p - 1
  {
    var q := w / p;
    assert w == p * q && 1 <= q;
    assert w - 1 == p * (q - 1) + (p - 1);
    Remainder(p, q - 1, p - 1);
  }
}
