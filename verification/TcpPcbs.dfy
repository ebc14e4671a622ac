/** The control blocks of tcp.c. */
module TcpPcbs {
  // Lists, listen backlog, and what changes them.  Each allocation gets a new identity, so that a
  // pointer to a deallocated block is never mistaken for one to its successor at the same address.

  import opened Bytes
  import opened Errors
  import opened Lists

  datatype TcpState =
    | CLOSED | SYN_SENT | SYN_RCVD | ESTABLISHED | FIN_WAIT_1 | FIN_WAIT_2
    | CLOSE_WAIT | CLOSING | LAST_ACK | TIME_WAIT

  predicate Active(s: TcpState) {
    s != CLOSED && s != TIME_WAIT
  }

  /** What the timers look at in the sender's part of a block. */
  datatype Sender = Sender(nrtx: nat, persistBackoff: nat, persistProbe: nat)

  /** The fields of struct tcp_pcb that neither lists nor backlog depend on.  `unread` tells that
      the application has not taken all received data. */
  datatype Connection = Connection(
    tmr: u32, sender: Sender, unread: bool, refusedFin: bool, pollTmr: byte, pollInterval: byte,
    keepAlive: bool, keepIdle: u32, rxClosed: bool, closePend: bool, ackDelay: bool)

  /** struct tcp_pcb.  `bound` tells that it has a local port, and `refused` how many pieces of
      data the application refused. */
  datatype Pcb = Pcb(state: TcpState, lastTimer: byte, listener: Ptr, backlogPend: bool, bound: bool, refused: nat, conn: Connection)

  /** The variables of tcp.c.  `listeners` gives `accepts_pending` of each listening block. */
  datatype Stack = Stack(
    pcbs: map<Ptr, Pcb>, listeners: map<Ptr, byte>, active: seq<Ptr>, tw: seq<Ptr>, bound: seq<Ptr>,
    changed: bool, timerCtr: byte, ticks: u32, unused: nat)
  {
    function Set(p: Ptr, b: Pcb): Stack {
      this.(pcbs := pcbs[p := b])
    }
  }

  // ---- the invariant --------------------------------------------------------------------

  /** A block is on the list its state asks for. */
  ghost predicate Placed(s: Stack, p: Ptr)
    requires p in s.pcbs
  {
    var b := s.pcbs[p];
    && (p in s.active <==> Active(b.state))
    && (p in s.tw <==> b.state == TIME_WAIT)
    && (p in s.bound ==> b.state == CLOSED && b.bound)
    && (b.listener != NULL ==> b.state != CLOSED && b.listener in s.listeners)
    && (b.state == TIME_WAIT ==> !b.backlogPend || b.listener == NULL)
    && 0 < p < s.unused
  }

  /** The blocks that wait to be accepted at listener `l`. */
  ghost function Waiting(pcbs: map<Ptr, Pcb>, l: Ptr): set<Ptr> {
    set p | p in pcbs && pcbs[p].backlogPend && pcbs[p].listener == l
  }

  /** `accepts_pending` counts exactly these. */
  ghost predicate Backlog(s: Stack, l: Ptr)
    requires l in s.listeners
  {
    s.listeners[l] == |Waiting(s.pcbs, l)| && 0 < l < s.unused
  }

  ghost predicate Valid(s: Stack) {
    && Distinct(s.active) && Distinct(s.tw) && Distinct(s.bound) && 0 < s.unused
    && (forall p :: p in s.active || p in s.tw || p in s.bound ==> p in s.pcbs)
    && (forall p {:trigger Placed(s, p)} :: p in s.pcbs ==> Placed(s, p))
    && (forall l {:trigger Backlog(s, l)} :: l in s.listeners ==> Backlog(s, l))
  }

  lemma {:induction false} NullNoListener(s: Stack)
    requires Valid(s)
    ensures NULL !in s.listeners
  {
    forall l | l in s.listeners ensures l != NULL { assert Backlog(s, l); }
  }

  function Empty(): Stack {
    Stack(map[], map[], [], [], [], false, 0, 0, 1)
  }

  lemma {:induction false} EmptyValid()
    ensures Valid(Empty())
  {
  }

  // ---- lists ---------------------------------------------------------------------------------

  /** TCP_RMV */
  function Without(l: seq<Ptr>, p: Ptr): seq<Ptr> {
    if l == [] then [] else if l[0] == p then l[1..] else [l[0]] + Without(l[1..], p)
  }

  lemma {:induction false} WithoutIs(l: seq<Ptr>, p: Ptr)
    requires Distinct(l)
    ensures Distinct(Without(l, p)) && forall x :: x in Without(l, p) <==> x in l && x != p
    decreases |l|
  {
    if l != [] {
      assert Distinct(l[1..]);
      if l[0] == p {
        assert forall x :: x in l[1..] ==> x != p;
      } else {
        WithoutIs(l[1..], p);
        assert l[0] !in l[1..];
      }
    }
  }

  lemma {:induction false} WithoutAbsent(l: seq<Ptr>, p: Ptr)
    requires p !in l
    ensures Without(l, p) == l
    decreases |l|
  {
    if l != [] { WithoutAbsent(l[1..], p); }
  }

  // ---- the steps -------------------------------------------------------------------------------

  /** `accepts_pending++` in 8 bits. */
  function More(n: byte): (r: byte)
    ensures n < 0xFF ==> r == n + 1
  {
    Low8((n as int) + 1)
  }

  /** `accepts_pending--` */
  function Less(n: byte): (r: byte)
    ensures 0 < n ==> r == n - 1
  {
    Low8((n as int) - 1)
  }

  /** tcp_backlog_accepted */
  function Accepted(s: Stack, p: Ptr): Stack
    requires p in s.pcbs
  {
    var b := s.pcbs[p];
    if b.backlogPend && b.listener in s.listeners
    then s.Set(p, b.(backlogPend := false)).(listeners := s.listeners[b.listener := Less(s.listeners[b.listener])])
    else s
  }

  /** tcp_backlog_delayed */
  function Delayed(s: Stack, p: Ptr): Stack
    requires p in s.pcbs
  {
    var b := s.pcbs[p];
    if !b.backlogPend && b.listener in s.listeners
    then s.Set(p, b.(backlogPend := true)).(listeners := s.listeners[b.listener := More(s.listeners[b.listener])])
    else s
  }

  /** A block is taken from its list and deallocated. */
  function Gone(s: Stack, p: Ptr): Stack
    requires p in s.pcbs
  {
    s.(pcbs := s.pcbs - {p}, active := Without(s.active, p), tw := Without(s.tw, p), bound := Without(s.bound, p),
       listeners := Accepted(s, p).listeners)
  }

  lemma {:induction false} WaitingWithout(pcbs: map<Ptr, Pcb>, pcbs': map<Ptr, Pcb>, p: Ptr, l: Ptr)
    requires p in pcbs && (p in pcbs' ==> !pcbs'[p].backlogPend)
    requires forall x :: x != p ==> (x in pcbs <==> x in pcbs') && (x in pcbs ==> pcbs'[x] == pcbs[x])
    ensures Waiting(pcbs', l) == Waiting(pcbs, l) - {p}
    ensures |Waiting(pcbs', l)| == |Waiting(pcbs, l)| - if p in Waiting(pcbs, l) then 1 else 0
  {
    assert Waiting(pcbs', l) == Waiting(pcbs, l) - {p};
  }

  /** No counter is decremented below zero, nor twice for one block. */
  lemma {:induction false} AcceptedValid(s: Stack, p: Ptr)
    requires Valid(s) && p in s.pcbs
    ensures Valid(Accepted(s, p))
    ensures s.pcbs[p].backlogPend && s.pcbs[p].listener != NULL ==> s.pcbs[p].listener in s.listeners && 0 < s.listeners[s.pcbs[p].listener]
  {
    var b, s' := s.pcbs[p], Accepted(s, p);
    assert Placed(s, p);
    if b.backlogPend && b.listener in s.listeners {
      assert Backlog(s, b.listener) && p in Waiting(s.pcbs, b.listener);
      forall l | l in s'.listeners ensures Backlog(s', l) {
        assert Backlog(s, l);
        WaitingWithout(s.pcbs, s'.pcbs, p, l);
      }
      forall x | x in s'.pcbs ensures Placed(s', x) { assert Placed(s, x); }
    }
  }

  /** A connection is not counted any more when the application hears of it. */
  lemma {:induction false} LeftBacklog(s: Stack, p: Ptr)
    requires Valid(s) && p in s.pcbs && s.pcbs[p].listener != NULL
    ensures p in Accepted(s, p).pcbs && !Accepted(s, p).pcbs[p].backlogPend
  {
    assert Placed(s, p);
  }

  lemma {:induction false} WaitingWith(pcbs: map<Ptr, Pcb>, p: Ptr, l: Ptr)
    requires p in pcbs && !pcbs[p].backlogPend
    ensures var pcbs' := pcbs[p := pcbs[p].(backlogPend := true)];
            |Waiting(pcbs', l)| == |Waiting(pcbs, l)| + if pcbs[p].listener == l then 1 else 0
  {
    var pcbs' := pcbs[p := pcbs[p].(backlogPend := true)];
    assert p !in Waiting(pcbs, l);
    if pcbs[p].listener == l {
      assert Waiting(pcbs', l) == Waiting(pcbs, l) + {p};
    } else {
      assert Waiting(pcbs', l) == Waiting(pcbs, l);
    }
  }

  lemma {:induction false} WaitingNew(pcbs: map<Ptr, Pcb>, p: Ptr, b: Pcb, l: Ptr)
    requires p !in pcbs && b.backlogPend
    ensures |Waiting(pcbs[p := b], l)| == |Waiting(pcbs, l)| + if b.listener == l then 1 else 0
  {
    if b.listener == l {
      assert Waiting(pcbs[p := b], l) == Waiting(pcbs, l) + {p};
    } else {
      assert Waiting(pcbs[p := b], l) == Waiting(pcbs, l);
    }
  }

  /** Only connections in use may be delayed, and the assertion behind the increment demands that
      the 8-bit counter does not wrap around. */
  predicate MayDelay(s: Stack, p: Ptr)
    requires p in s.pcbs
  {
    Active(s.pcbs[p].state) &&
    (!s.pcbs[p].backlogPend && s.pcbs[p].listener in s.listeners ==> s.listeners[s.pcbs[p].listener] < 0xFF)
  }

  lemma {:induction false} DelayedValid(s: Stack, p: Ptr)
    requires Valid(s) && p in s.pcbs && MayDelay(s, p)
    ensures Valid(Delayed(s, p))
    ensures Delayed(s, p).pcbs == s.pcbs[p := s.pcbs[p].(backlogPend := s.pcbs[p].backlogPend || s.pcbs[p].listener != NULL)]
  {
    var b, s' := s.pcbs[p], Delayed(s, p);
    assert Placed(s, p) && s.pcbs == s.pcbs[p := b];
    NullNoListener(s);
    if !b.backlogPend && b.listener in s.listeners {
      forall l | l in s'.listeners ensures Backlog(s', l) {
        assert Backlog(s, l);
        WaitingWith(s.pcbs, p, l);
      }
      forall x | x in s'.pcbs ensures Placed(s', x) { assert Placed(s, x); }
    }
  }

  lemma {:induction false} GonePlaced(s: Stack, p: Ptr)
    requires Valid(s) && p in s.pcbs
    ensures var s' := Gone(s, p);
            && Distinct(s'.active) && Distinct(s'.tw) && Distinct(s'.bound)
            && (forall x :: x in s'.active || x in s'.tw || x in s'.bound ==> x in s'.pcbs)
            && (forall x {:trigger Placed(s', x)} :: x in s'.pcbs ==> Placed(s', x))
  {
    var s' := Gone(s, p);
    WithoutIs(s.active, p);
    WithoutIs(s.tw, p);
    WithoutIs(s.bound, p);
    forall x | x in s'.pcbs ensures Placed(s', x) { assert Placed(s, x); }
  }

  lemma {:induction false} GoneBacklog(s: Stack, p: Ptr, l: Ptr)
    requires Valid(s) && p in s.pcbs && l in s.listeners
    ensures Backlog(Gone(s, p), l)
  {
    var b := s.pcbs[p];
    assert Backlog(s, l);
    WaitingWithout(s.pcbs, s.pcbs - {p}, p, l);
    assert p in Waiting(s.pcbs, l) <==> b.backlogPend && b.listener == l;
    assert Gone(s, p).listeners[l] == if b.backlogPend && b.listener == l then Less(s.listeners[l]) else s.listeners[l];
  }

  lemma {:induction false} GoneValid(s: Stack, p: Ptr)
    requires Valid(s) && p in s.pcbs
    ensures Valid(Gone(s, p)) && Gone(s, p).pcbs.Keys == s.pcbs.Keys - {p}
    ensures forall q :: q in s.pcbs && q != p ==> Gone(s, p).pcbs[q] == s.pcbs[q]
  {
    GonePlaced(s, p);
    forall l | l in s.listeners ensures Backlog(Gone(s, p), l) { GoneBacklog(s, p, l); }
  }

  /** tcp_pcb_purge */
  function Purged(s: Stack, p: Ptr): Stack
    requires p in s.pcbs
  {
    if Active(s.pcbs[p].state) then var s' := Accepted(s, p); s'.Set(p, s'.pcbs[p].(refused := 0)) else s
  }

  lemma {:induction false} PurgedShape(s: Stack, p: Ptr)
    requires Valid(s) && p in s.pcbs
    ensures p in Purged(s, p).pcbs
    ensures var b, b' := s.pcbs[p], Purged(s, p).pcbs[p];
            b' == b.(backlogPend := b'.backlogPend, refused := b'.refused) && (Active(b.state) ==> b'.refused == 0 && (!b'.backlogPend || b.listener == NULL))
  {
    assert Placed(s, p);
  }

  lemma {:induction false} PurgedValid(s: Stack, p: Ptr)
    requires Valid(s) && p in s.pcbs
    ensures Valid(Purged(s, p)) && Later(s, Purged(s, p))
  {
    if Active(s.pcbs[p].state) {
      var s' := Accepted(s, p);
      var b := s'.pcbs[p].(refused := 0);
      AcceptedValid(s, p);
      AcceptedLater(s, p);
      SimilarValid(s', p, b);
      SetLater(s', p, b);
      LaterLater(s, s', s'.Set(p, b));
    } else {
      LaterSame(s);
    }
  }

  /** Every way to deallocate a block ends the same: purged before or not. */
  lemma {:induction false} GoneAfterPurge(s: Stack, p: Ptr)
    requires Valid(s) && p in s.pcbs
    ensures Gone(Purged(s, p), p) == Gone(s, p)
  {
    PurgedShape(s, p);
    assert Purged(s, p).pcbs - {p} == s.pcbs - {p};
    assert Placed(s, p);
  }

  /** The lists a block is not on do not change when it is removed. */
  lemma {:induction false} OnOneList(s: Stack, p: Ptr)
    requires Valid(s) && p in s.pcbs
    ensures var b := s.pcbs[p];
            && (!Active(b.state) ==> Without(s.active, p) == s.active && Accepted(s, p).listeners == s.listeners)
            && (b.state != TIME_WAIT ==> Without(s.tw, p) == s.tw)
            && (b.state != CLOSED || !b.bound ==> Without(s.bound, p) == s.bound)
  {
    assert Placed(s, p);
    NullNoListener(s);
    if p !in s.active { WithoutAbsent(s.active, p); }
    if p !in s.tw { WithoutAbsent(s.tw, p); }
    if p !in s.bound { WithoutAbsent(s.bound, p); }
  }

  /** tcp_close_shutdown_fin: the FIN was enqueued, has to wait for memory, or failed. */
  function FinSent(s: Stack, p: Ptr, sent: Err): Stack
    requires p in s.pcbs
  {
    var state := s.pcbs[p].state;
    if state != SYN_RCVD && state != ESTABLISHED && state != CLOSE_WAIT then s
    else if sent == Ok then
      var s' := if state == SYN_RCVD then Accepted(s, p) else s;
      s'.Set(p, s'.pcbs[p].(state := if state == CLOSE_WAIT then LAST_ACK else FIN_WAIT_1))
    else if sent == OutOfMemory then s.Set(p, s.pcbs[p].(conn := s.pcbs[p].conn.(closePend := true)))
    else s
  }

  lemma {:induction false} FinSentValid(s: Stack, p: Ptr, sent: Err)
    requires Valid(s) && p in s.pcbs
    ensures Valid(FinSent(s, p, sent)) && Later(s, FinSent(s, p, sent)) && p in FinSent(s, p, sent).pcbs
    ensures FinSent(s, p, sent).pcbs.Keys == s.pcbs.Keys && FinSent(s, p, sent).active == s.active && FinSent(s, p, sent).changed == s.changed
  {
    var state, s' := s.pcbs[p].state, if s.pcbs[p].state == SYN_RCVD then Accepted(s, p) else s;
    AcceptedValid(s, p);
    AcceptedLater(s, p);
    LaterSame(s);
    var b := if sent == Ok then s'.pcbs[p].(state := if state == CLOSE_WAIT then LAST_ACK else FIN_WAIT_1) else s.pcbs[p].(conn := s.pcbs[p].conn.(closePend := true));
    if state == SYN_RCVD || state == ESTABLISHED || state == CLOSE_WAIT {
      if sent == Ok {
        SimilarValid(s', p, b);
        SetLater(s', p, b);
        LaterLater(s, s', s'.Set(p, b));
      } else {
        SimilarValid(s, p, b);
        SetLater(s, p, b);
      }
    }
  }

  /** What the block is like after tcp_close_shutdown_fin: it moves on if the FIN was enqueued, is marked
      for another attempt if there was no memory, and else stays as it is, as do all other blocks. */
  lemma {:induction false} FinSentBlock(s: Stack, p: Ptr, sent: Err)
    requires Valid(s) && p in s.pcbs
    ensures var s', b := FinSent(s, p, sent), s.pcbs[p];
            && p in s'.pcbs && (forall q :: q in s.pcbs && q != p ==> q in s'.pcbs && s'.pcbs[q] == s.pcbs[q])
            && (b.state == ESTABLISHED && sent == Ok ==> s'.pcbs[p] == b.(state := FIN_WAIT_1))
            && (b.state == CLOSE_WAIT && sent == Ok ==> s'.pcbs[p] == b.(state := LAST_ACK))
            && (b.state == SYN_RCVD && sent == Ok ==> s'.pcbs[p] == b.(state := FIN_WAIT_1, backlogPend := b.backlogPend && b.listener == NULL))
            && (b.state in {SYN_RCVD, ESTABLISHED, CLOSE_WAIT} && sent == OutOfMemory ==> s'.pcbs[p] == b.(conn := b.conn.(closePend := true)))
            && (b.state !in {SYN_RCVD, ESTABLISHED, CLOSE_WAIT} || (sent != Ok && sent != OutOfMemory) ==> s' == s)
  {
    assert Placed(s, p);
    NullNoListener(s);
  }

  /** Other fields of a block are of no importance to its removal. */
  lemma {:induction false} GoneAfterFlag(s: Stack, p: Ptr, b: Pcb)
    requires p in s.pcbs && b.backlogPend == s.pcbs[p].backlogPend && b.listener == s.pcbs[p].listener
    ensures Gone(s.Set(p, b), p) == Gone(s, p)
  {
    assert s.Set(p, b).pcbs - {p} == s.pcbs - {p};
  }

  lemma {:induction false} SetTwice(s: Stack, p: Ptr, b: Pcb, b': Pcb)
    ensures s.Set(p, b).Set(p, b') == s.Set(p, b')
  {
    assert s.pcbs[p := b][p := b'] == s.pcbs[p := b'];
  }

  /** Nothing the invariant looks at has changed in block `p`. */
  ghost predicate Similar(b: Pcb, b': Pcb) {
    && (Active(b.state) <==> Active(b'.state)) && (b.state == TIME_WAIT <==> b'.state == TIME_WAIT)
    && (b.bound ==> b'.bound) && b'.listener == b.listener && b'.backlogPend == b.backlogPend
  }

  lemma {:induction false} SimilarValid(s: Stack, p: Ptr, b: Pcb)
    requires Valid(s) && p in s.pcbs && Similar(s.pcbs[p], b)
    ensures Valid(s.Set(p, b))
  {
    var s' := s.Set(p, b);
    forall x | x in s'.pcbs ensures Placed(s', x) { assert Placed(s, x); }
    forall l | l in s'.listeners ensures Backlog(s', l) {
      assert Backlog(s, l);
      assert Waiting(s'.pcbs, l) == Waiting(s.pcbs, l);
    }
  }

  lemma {:induction false} GlobalsValid(s: Stack, changed: bool, timerCtr: byte, ticks: u32)
    requires Valid(s)
    ensures Valid(s.(changed := changed, timerCtr := timerCtr, ticks := ticks))
  {
    var s' := s.(changed := changed, timerCtr := timerCtr, ticks := ticks);
    forall x | x in s'.pcbs ensures Placed(s', x) { assert Placed(s, x); }
    forall l | l in s'.listeners ensures Backlog(s', l) { assert Backlog(s, l); }
  }

  /** tcp_alloc: a block in state CLOSED, stamped as if this timer tick had dealt with it. */
  function Fresh(s: Stack): Pcb {
    Pcb(CLOSED, s.timerCtr, NULL, false, false, 0, Connection(s.ticks, Sender(0, 0, 0), false, false, 0, 0, false, 7200000, false, false, false))
  }

  function Born(s: Stack): Stack {
    s.Set(s.unused, Fresh(s)).(unused := s.unused + 1)
  }

  lemma {:induction false} BornValid(s: Stack)
    requires Valid(s)
    ensures s.unused !in s.pcbs && Valid(Born(s)) && Born(s).pcbs.Keys == s.pcbs.Keys + {s.unused}
    ensures Born(s).pcbs[s.unused].state == CLOSED && !Born(s).pcbs[s.unused].bound && Born(s).pcbs[s.unused].lastTimer == s.timerCtr
  {
    var s' := Born(s);
    NobodyWaits(s);
    forall x | x in s'.pcbs ensures Placed(s', x) { if x != s.unused { assert Placed(s, x); } }
    forall l | l in s'.listeners ensures Backlog(s', l) {
      assert Backlog(s, l);
      assert Waiting(s'.pcbs, l) == Waiting(s.pcbs, l);
    }
  }

  /** tcp_bind */
  function Bound(s: Stack, p: Ptr): Stack
    requires p in s.pcbs
  {
    s.Set(p, s.pcbs[p].(bound := true)).(bound := [p] + s.bound)
  }

  lemma {:induction false} BoundValid(s: Stack, p: Ptr)
    requires Valid(s) && p in s.pcbs && s.pcbs[p].state == CLOSED && p !in s.bound
    ensures Valid(Bound(s, p)) && p in Bound(s, p).bound && p in Bound(s, p).pcbs && Bound(s, p).pcbs[p].bound
  {
    var s' := Bound(s, p);
    forall x | x in s'.pcbs ensures Placed(s', x) { assert Placed(s, x); }
    forall l | l in s'.listeners ensures Backlog(s', l) {
      assert Backlog(s, l);
      assert Waiting(s'.pcbs, l) == Waiting(s.pcbs, l);
    }
  }

  /** tcp_connect, the SYN was enqueued. */
  function Connecting(s: Stack, p: Ptr): Stack
    requires p in s.pcbs
  {
    s.Set(p, s.pcbs[p].(state := SYN_SENT, bound := true)).(bound := Without(s.bound, p), active := [p] + s.active, changed := true)
  }

  lemma {:induction false} ConnectingValid(s: Stack, p: Ptr)
    requires Valid(s) && p in s.pcbs && s.pcbs[p].state == CLOSED
    ensures Valid(Connecting(s, p)) && p in Connecting(s, p).active && Connecting(s, p).changed
    ensures p in Connecting(s, p).pcbs && Connecting(s, p).pcbs[p] == s.pcbs[p].(state := SYN_SENT, bound := true)
  {
    var s' := Connecting(s, p);
    assert Placed(s, p);
    WithoutIs(s.bound, p);
    forall x | x in s'.pcbs ensures Placed(s', x) { assert Placed(s, x); }
    forall l | l in s'.listeners ensures Backlog(s', l) {
      assert Backlog(s, l);
      assert Waiting(s'.pcbs, l) == Waiting(s.pcbs, l);
    }
  }

  /** tcp_listen: the block is replaced by a listening one. */
  function Listening(s: Stack, p: Ptr): Stack
    requires p in s.pcbs
  {
    s.(pcbs := s.pcbs - {p}, bound := Without(s.bound, p), listeners := s.listeners[s.unused := 0], unused := s.unused + 1)
  }

  lemma {:induction false} ListeningValid(s: Stack, p: Ptr)
    requires Valid(s) && p in s.pcbs && s.pcbs[p].state == CLOSED
    ensures Valid(Listening(s, p)) && p !in Listening(s, p).pcbs
    ensures s.unused !in s.listeners && s.unused in Listening(s, p).listeners && Listening(s, p).listeners[s.unused] == 0
  {
    var s' := Listening(s, p);
    NobodyWaits(s);
    assert Placed(s, p);
    WithoutIs(s.bound, p);
    forall x | x in s'.pcbs ensures Placed(s', x) { assert Placed(s, x); }
    forall l | l in s'.listeners ensures Backlog(s', l) {
      WaitingWithout(s.pcbs, s'.pcbs, p, l);
      if l == s.unused { NobodyWaits(s); } else { assert Backlog(s, l); }
    }
  }

  lemma {:induction false} NobodyWaits(s: Stack)
    requires Valid(s)
    ensures Waiting(s.pcbs, s.unused) == {} && s.unused !in s.listeners && s.unused !in s.pcbs
  {
    assert s.unused in s.pcbs ==> Placed(s, s.unused);
    assert s.unused in s.listeners ==> Backlog(s, s.unused);
    forall p | p in s.pcbs ensures s.pcbs[p].listener != s.unused {
      assert Placed(s, p);
    }
  }

  /** tcp_listen_closed and the removal of the listener. */
  function ListenerGone(s: Stack, l: Ptr): Stack {
    s.(pcbs := map p | p in s.pcbs :: Orphaned(s.pcbs[p], l), listeners := s.listeners - {l})
  }

  /** tcp_remove_listener for one block. */
  function Orphaned(b: Pcb, l: Ptr): Pcb {
    if b.listener == l then b.(listener := NULL) else b
  }

  /** tcp_remove_listener for the blocks of one list. */
  function OrphanedIn(pcbs: map<Ptr, Pcb>, ps: seq<Ptr>, l: Ptr): (r: map<Ptr, Pcb>)
    ensures r.Keys == pcbs.Keys
  {
    map p | p in pcbs :: if p in ps then Orphaned(pcbs[p], l) else pcbs[p]
  }

  lemma {:induction false} OrphanedNext(pcbs: map<Ptr, Pcb>, ps: seq<Ptr>, i: nat, l: Ptr)
    requires i < |ps| && ps[i] in pcbs
    ensures OrphanedIn(pcbs, ps[..0], l) == pcbs && OrphanedIn(pcbs, ps[..|ps|], l) == OrphanedIn(pcbs, ps, l)
    ensures var r := OrphanedIn(pcbs, ps[..i], l);
            ps[i] in r && OrphanedIn(pcbs, ps[..i + 1], l) == r[ps[i] := Orphaned(r[ps[i]], l)]
  {
    assert ps[..i + 1] == ps[..i] + [ps[i]] && ps[..|ps|] == ps;
  }

  /** The lists have all blocks that point to a listener. */
  lemma {:induction false} AllOrphaned(s: Stack, l: Ptr)
    requires Valid(s) && l in s.listeners
    ensures OrphanedIn(OrphanedIn(OrphanedIn(s.pcbs, s.bound, l), s.active, l), s.tw, l) == ListenerGone(s, l).pcbs
  {
    assert Backlog(s, l);
    var r := OrphanedIn(OrphanedIn(OrphanedIn(s.pcbs, s.bound, l), s.active, l), s.tw, l);
    forall p | p in s.pcbs ensures r[p] == Orphaned(s.pcbs[p], l) { assert Placed(s, p); }
  }

  lemma {:induction false} ListenerGoneValid(s: Stack, l: Ptr)
    requires Valid(s) && l in s.listeners
    ensures Valid(ListenerGone(s, l)) && ListenerGone(s, l).pcbs.Keys == s.pcbs.Keys && l !in ListenerGone(s, l).listeners
    ensures forall k :: k in s.listeners && k != l ==> k in ListenerGone(s, l).listeners && ListenerGone(s, l).listeners[k] == s.listeners[k]
    ensures forall p :: p in s.pcbs ==> ListenerGone(s, l).pcbs[p] == if s.pcbs[p].listener == l then s.pcbs[p].(listener := NULL) else s.pcbs[p]
  {
    var s' := ListenerGone(s, l);
    forall x | x in s'.pcbs ensures Placed(s', x) { assert Placed(s, x); }
    forall k | k in s'.listeners ensures Backlog(s', k) {
      assert Backlog(s, k);
      assert Waiting(s'.pcbs, k) == Waiting(s.pcbs, k);
    }
  }

  /** A SYN has arrived: a block in state SYN_RCVD that its listener waits for. */
  function SynReceived(s: Stack, l: Ptr): Stack
    requires l in s.listeners
  {
    var p := s.unused;
    s.Set(p, Fresh(s).(state := SYN_RCVD, bound := true, listener := l, backlogPend := true))
     .(active := [p] + s.active, changed := true, listeners := s.listeners[l := More(s.listeners[l])], unused := p + 1)
  }

  lemma {:induction false} SynReceivedValid(s: Stack, l: Ptr)
    requires Valid(s) && l in s.listeners && s.listeners[l] < 0xFF
    ensures Valid(SynReceived(s, l)) && s.unused !in s.pcbs && s.unused in SynReceived(s, l).pcbs && SynReceived(s, l).changed
    ensures var b := SynReceived(s, l).pcbs[s.unused];
            b.state == SYN_RCVD && b.listener == l && b.backlogPend && SynReceived(s, l).listeners == s.listeners[l := s.listeners[l] + 1]
  {
    var p, s' := s.unused, SynReceived(s, l);
    NobodyWaits(s);
    forall x | x in s'.pcbs ensures Placed(s', x) { if x != p { assert Placed(s, x); } }
    forall k | k in s'.listeners ensures Backlog(s', k) {
      assert Backlog(s, k);
      WaitingNew(s.pcbs, p, s'.pcbs[p], k);
    }
  }

  /** A purged block enters TIME_WAIT. */
  function Waits(s: Stack, p: Ptr): Stack
    requires p in s.pcbs
  {
    s.Set(p, s.pcbs[p].(state := TIME_WAIT)).(active := Without(s.active, p), tw := [p] + s.tw, changed := true)
  }

  lemma {:induction false} WaitsValid(s: Stack, p: Ptr)
    requires Valid(s) && p in s.pcbs && Active(s.pcbs[p].state) && (!s.pcbs[p].backlogPend || s.pcbs[p].listener == NULL)
    ensures Valid(Waits(s, p)) && p in Waits(s, p).tw && Waits(s, p).changed
    ensures p in Waits(s, p).pcbs && Waits(s, p).pcbs[p] == s.pcbs[p].(state := TIME_WAIT)
  {
    var s' := Waits(s, p);
    assert Placed(s, p);
    WithoutIs(s.active, p);
    forall x | x in s'.pcbs ensures Placed(s', x) { assert Placed(s, x); }
    forall l | l in s'.listeners ensures Backlog(s', l) {
      assert Backlog(s, l);
      assert Waiting(s'.pcbs, l) == Waiting(s.pcbs, l);
    }
  }

  // ---- the backlog --------------------------------------------------------------------------

  /** A connection is counted once and taken back once. */
  lemma {:induction false} AcceptedOnce(s: Stack, p: Ptr)
    requires Valid(s) && p in s.pcbs
    ensures Accepted(Accepted(s, p), p) == Accepted(s, p)
    ensures MayDelay(s, p) ==> Delayed(Delayed(s, p), p) == Delayed(s, p)
    ensures MayDelay(s, p) && !s.pcbs[p].backlogPend ==> Accepted(Delayed(s, p), p) == s
  {
    var b := s.pcbs[p];
    assert Placed(s, p);
    if MayDelay(s, p) && !b.backlogPend && b.listener in s.listeners {
      var l, s' := b.listener, Delayed(s, p);
      SetTwice(s, p, b.(backlogPend := true), b);
      assert s.pcbs[p := b] == s.pcbs;
      assert s'.listeners[l := Less(s'.listeners[l])] == s.listeners;
    }
  }

  /** tcp_pcb_purge, and the block leaves its list and memory. */
  function Freed(s: Stack, p: Ptr): Stack
    requires p in s.pcbs
  {
    var s1 := Purged(s, p);
    s1.(pcbs := s1.pcbs - {p}, active := Without(s1.active, p), tw := Without(s1.tw, p), bound := Without(s1.bound, p))
  }

  /** In a valid stack this is the removal without a purge. */
  lemma {:induction false} FreedIsGone(s: Stack, p: Ptr)
    requires Valid(s) && p in s.pcbs
    ensures Freed(s, p) == Gone(s, p)
  {
    OnOneList(s, p);
    assert Purged(s, p).pcbs - {p} == s.pcbs - {p};
  }

  /** tcp_backlog_delayed does not look at the state.  A connection delayed in TIME_WAIT stays
      counted when it is removed, as the purge does not take it back then. */
  lemma {:induction false} DelayedTimeWait(s: Stack, p: Ptr)
    requires Valid(s) && p in s.pcbs && s.pcbs[p].listener in s.listeners
    requires !s.pcbs[p].backlogPend ==> s.listeners[s.pcbs[p].listener] < 0xFF
    ensures var l, s1 := s.pcbs[p].listener, Delayed(s, p);
            var s2 := Freed(s1, p);
            && l in s2.listeners && s1.listeners[l] == |Waiting(s1.pcbs, l)|
            && s2.listeners[l] == |Waiting(s2.pcbs, l)| + (if s.pcbs[p].state == TIME_WAIT then 1 else 0)
    ensures Valid(Delayed(s, p)) <==> s.pcbs[p].state != TIME_WAIT
  {
    var l, s1 := s.pcbs[p].listener, Delayed(s, p);
    assert Placed(s, p) && Backlog(s, l);
    if s.pcbs[p].state == TIME_WAIT {
      WaitingWith(s.pcbs, p, l);
      assert !Placed(s1, p);
      assert Freed(s1, p).pcbs == s.pcbs - {p};
      WaitingWithout(s.pcbs, s.pcbs - {p}, p, l);
    } else {
      DelayedValid(s, p);
      assert Backlog(s1, l);
      FreedIsGone(s1, p);
      GoneBacklog(s1, p, l);
    }
  }

  // ---- what callbacks may do -----------------------------------------------------------------

  /** `s'` comes from `s` by steps that a timer does not take itself: no block gets an old
      stamp, and the list of active blocks stays as it is unless `changed` is set. */
  ghost predicate Later(s: Stack, s': Stack) {
    && s'.timerCtr == s.timerCtr && s'.ticks == s.ticks && s.unused <= s'.unused
    && (forall p {:trigger Kept(s, s', p)} :: p in s'.pcbs ==> Kept(s, s', p))
    && (s.changed ==> s'.changed) && (!s'.changed ==> s'.active == s.active)
  }

  ghost predicate Kept(s: Stack, s': Stack, p: Ptr)
    requires p in s'.pcbs
  {
    if p in s.pcbs then s'.pcbs[p].lastTimer == s.pcbs[p].lastTimer && s'.pcbs[p].refused <= s.pcbs[p].refused
    else s.unused <= p && s'.pcbs[p].lastTimer == s.timerCtr
  }

  lemma {:induction false} LaterSame(s: Stack)
    ensures Later(s, s)
  {
  }

  lemma {:induction false} LaterLater(s: Stack, s': Stack, s'': Stack)
    requires Valid(s) && Later(s, s') && Later(s', s'')
    ensures Later(s, s'')
  {
    forall p | p in s''.pcbs ensures Kept(s, s'', p) {
      assert p in s.pcbs ==> Placed(s, p);
      assert Kept(s', s'', p);
      assert p in s'.pcbs ==> Kept(s, s', p);
    }
  }

  lemma {:induction false} AcceptedLater(s: Stack, p: Ptr)
    requires p in s.pcbs
    ensures Later(s, Accepted(s, p)) && Later(s, Delayed(s, p))
  {
    forall x | x in s.pcbs ensures Kept(s, Accepted(s, p), x) && Kept(s, Delayed(s, p), x) {}
  }

  lemma {:induction false} SetLater(s: Stack, p: Ptr, b: Pcb)
    requires p in s.pcbs && b.lastTimer == s.pcbs[p].lastTimer && b.refused <= s.pcbs[p].refused
    ensures Later(s, s.Set(p, b))
  {
    forall x | x in s.pcbs ensures Kept(s, s.Set(p, b), x) {}
  }

  lemma {:induction false} GoneLater(s: Stack, p: Ptr, changed: bool)
    requires p in s.pcbs && (s.changed || p in s.active ==> changed)
    ensures Later(s, Gone(s, p).(changed := changed))
  {
    var s' := Gone(s, p).(changed := changed);
    if !changed { WithoutAbsent(s.active, p); }
    forall x | x in s'.pcbs ensures Kept(s, s', x) {}
  }

  lemma {:induction false} NewLater(s: Stack)
    requires Valid(s)
    ensures Later(s, Born(s)) && forall l :: l in s.listeners ==> Later(s, SynReceived(s, l))
  {
    NobodyWaits(s);
    forall x | x in Born(s).pcbs ensures Kept(s, Born(s), x) {}
    forall l | l in s.listeners ensures Later(s, SynReceived(s, l)) {
      forall x | x in SynReceived(s, l).pcbs ensures Kept(s, SynReceived(s, l), x) {}
    }
  }

  lemma {:induction false} ClosedLater(s: Stack, p: Ptr)
    requires p in s.pcbs
    ensures Later(s, Bound(s, p)) && Later(s, Connecting(s, p)) && Later(s, Listening(s, p)) && Later(s, Waits(s, p))
  {
    forall x | x in s.pcbs ensures Kept(s, Bound(s, p), x) && Kept(s, Connecting(s, p), x) && Kept(s, Waits(s, p), x) {}
    forall x | x in Listening(s, p).pcbs ensures Kept(s, Listening(s, p), x) {}
  }

  lemma {:induction false} ListenerGoneLater(s: Stack, l: Ptr)
    ensures Later(s, ListenerGone(s, l))
  {
    forall x | x in s.pcbs ensures Kept(s, ListenerGone(s, l), x) {}
  }

  lemma {:induction false} RestoreLater(s0: Stack, s1: Stack, s: Stack, p: Ptr, refused: nat)
    requires Later(s0, s) && Later(s0, s1) && p in s.pcbs && p in s1.pcbs && s1.pcbs[p].refused == refused
    ensures Later(s0, s.Set(p, s.pcbs[p].(refused := refused)))
  {
    var s' := s.Set(p, s.pcbs[p].(refused := refused));
    assert Kept(s0, s, p) && Kept(s0, s1, p);
    forall x | x in s'.pcbs ensures Kept(s0, s', x) { assert x != p ==> Kept(s0, s, x); }
  }

  /** The blocks this tick has not dealt with yet. */
  ghost function Stale(s: Stack): set<Ptr> {
    set p | p in s.pcbs && s.pcbs[p].lastTimer != s.timerCtr
  }

  lemma {:induction false} Fewer(a: set<Ptr>, b: set<Ptr>)
    requires a <= b
    ensures |a| <= |b| && (a != b ==> |a| < |b|)
  {
    assert b == a + (b - a);
    if a != b { assert b - a != {}; }
  }
}
