/** lwip/core/tcp.c: closing and aborting connections, and the timers that walk over lists which
    callbacks may change.

    The lists and control blocks are those of `TcpPcbs`, whose functions are the specifications
    of the methods here; what a tick of a timer does is a function of `TcpTicks`, which knows
    nothing of walks that start again. */
module Tcp {
  import opened Bytes
  import opened Errors
  import opened Lists
  import opened TcpPcbs
  import opened TcpCalls
  import opened TcpTimers
  import opened TcpTicks

  class Tcp {
    var s: Stack

    /** The callbacks that were made, the latest last. */
    ghost var asked: seq<Question>

    /** The application: how it reacts to an event, given all it can know. */
    const app: Application

    /** The sender (tcp_out.c is not part of this model): what its steps make of a block. */
    const sender: (Ptr, Stack) -> Sender

    constructor (app: Application, sender: (Ptr, Stack) -> Sender)
      ensures s == Empty() && Valid(s) && this.app == app && this.sender == sender && asked == []
    {
      this.app := app;
      this.sender := sender;
      s := Empty();
      asked := [];
      new;
      EmptyValid();
    }

    /** tcp_backlog_accepted */
    method AcceptBacklog(p: Ptr)
      requires Valid(s) && p in s.pcbs
      modifies `s
      ensures s == Accepted(old(s), p) && Valid(s) && Later(old(s), s)
    {
      AcceptedValid(s, p);
      AcceptedLater(s, p);
      var b := s.pcbs[p];
      if b.backlogPend {
        assert Placed(s, p);
        if b.listener != NULL {
          assert s.listeners[b.listener] != 0;
          s := s.(listeners := s.listeners[b.listener := Less(s.listeners[b.listener])]);
          s := s.Set(p, b.(backlogPend := false));
        } else {
          NullNoListener(s);
        }
      }
    }

    /** tcp_backlog_delayed */
    method DelayBacklog(p: Ptr)
      requires Valid(s) && p in s.pcbs && MayDelay(s, p)
      modifies `s
      ensures s == Delayed(old(s), p) && Valid(s) && Later(old(s), s)
    {
      DelayedValid(s, p);
      AcceptedLater(s, p);
      var b := s.pcbs[p];
      if !b.backlogPend {
        assert Placed(s, p);
        if b.listener != NULL {
          s := s.(listeners := s.listeners[b.listener := More(s.listeners[b.listener])]);
          assert s.listeners[b.listener] != 0;
          s := s.Set(p, b.(backlogPend := true));
        } else {
          NullNoListener(s);
        }
      }
    }

    /** tcp_pcb_purge */
    method Purge(p: Ptr)
      requires Valid(s) && p in s.pcbs
      modifies `s
      ensures s == Purged(old(s), p) && Valid(s) && Later(old(s), s)
    {
      PurgedValid(s, p);
      if s.pcbs[p].state != CLOSED && s.pcbs[p].state != TIME_WAIT {
        AcceptBacklog(p);
        s := s.Set(p, s.pcbs[p].(refused := 0));
      }
    }

    /** Purges a connection in use and takes it from its list; then deallocates it. */
    method RemoveActive(p: Ptr)
      requires Valid(s) && p in s.pcbs && Active(s.pcbs[p].state)
      modifies `s
      ensures s == Gone(old(s), p).(changed := true) && Valid(s) && Later(old(s), s)
    {
      ghost var s0 := s;
      GoneAfterPurge(s0, p);
      GoneValid(s0, p);
      GlobalsValid(Gone(s0, p), true, s0.timerCtr, s0.ticks);
      GoneLater(s0, p, true);
      OnOneList(s0, p);
      Purge(p);
      s := s.(active := Without(s.active, p), changed := true);
      s := s.(pcbs := s.pcbs - {p});
    }

    /** The steps of tcp_abandon and tcp_close for blocks that are not in use. */
    method FreeIdle(p: Ptr)
      requires Valid(s) && p in s.pcbs && !Active(s.pcbs[p].state)
      modifies `s
      ensures s == Gone(old(s), p) && Valid(s) && Later(old(s), s)
    {
      ghost var s0 := s;
      GoneValid(s, p);
      OnOneList(s, p);
      GoneLater(s, p, s.changed);
      if s.pcbs[p].state == TIME_WAIT {
        s := s.(tw := Without(s.tw, p));
      } else if s.pcbs[p].bound {
        s := s.(bound := Without(s.bound, p));
      }
      s := s.(pcbs := s.pcbs - {p});
    }

    /** tcp_close of a listening block: it is taken from all blocks that point to it. */
    method RemoveListener(l: Ptr)
      requires Valid(s) && l in s.listeners
      modifies `s
      ensures s == ListenerGone(old(s), l) && Valid(s) && Later(old(s), s)
    {
      ListenerGoneValid(s, l);
      ListenerGoneLater(s, l);
      AllOrphaned(s, l);
      Orphan(s.bound, l);
      Orphan(s.active, l);
      Orphan(s.tw, l);
      s := s.(listeners := s.listeners - {l});
    }

    /** tcp_remove_listener */
    method Orphan(ps: seq<Ptr>, l: Ptr)
      requires forall p :: p in ps ==> p in s.pcbs
      modifies `s
      ensures s == old(s).(pcbs := OrphanedIn(old(s).pcbs, ps, l))
    {
      ghost var pcbs := s.pcbs;
      var i := 0;
      assert OrphanedIn(pcbs, ps[..0], l) == pcbs;
      while i < |ps|
        invariant 0 <= i <= |ps| && s == old(s).(pcbs := OrphanedIn(pcbs, ps[..i], l))
      {
        OrphanedNext(pcbs, ps, i, l);
        if s.pcbs[ps[i]].listener == l {
          s := s.Set(ps[i], s.pcbs[ps[i]].(listener := NULL));
        } else {
          assert s.pcbs[ps[i] := Orphaned(s.pcbs[ps[i]], l)] == s.pcbs;
        }
        i := i + 1;
      }
      assert ps[..|ps|] == ps;
    }

    /** tcp_alloc, when there is memory for a block. */
    method Alloc() returns (p: Ptr)
      requires Valid(s)
      modifies `s
      ensures p == old(s).unused && s == Born(old(s)) && Valid(s) && Later(old(s), s)
    {
      BornValid(s);
      NewLater(s);
      p := s.unused;
      s := s.Set(p, Fresh(s));
      s := s.(unused := p + 1);
    }

    /** tcp_bind, the address is not in use. */
    method BindPcb(p: Ptr)
      requires Valid(s) && p in s.pcbs && s.pcbs[p].state == CLOSED && p !in s.bound
      modifies `s
      ensures s == Bound(old(s), p) && Valid(s) && Later(old(s), s)
    {
      BoundValid(s, p);
      ClosedLater(s, p);
      s := s.Set(p, s.pcbs[p].(bound := true));
      s := s.(bound := [p] + s.bound);
    }

    /** tcp_connect, there is a route and a free port. */
    method ConnectPcb(p: Ptr, enqueued: Err) returns (err: Err)
      requires Valid(s) && p in s.pcbs
      modifies `s
      ensures s == (if old(s).pcbs[p].state != CLOSED then old(s)
                    else if enqueued != Ok then old(s).Set(p, old(s).pcbs[p].(bound := true)) else Connecting(old(s), p))
      ensures Valid(s) && Later(old(s), s)
    {
      if s.pcbs[p].state != CLOSED {
        LaterSame(s);
        return IsConnected;
      }
      ConnectingValid(s, p);
      ClosedLater(s, p);
      OnOneList(s, p);
      var hadPort, b := s.pcbs[p].bound, s.pcbs[p].(bound := true);
      SimilarValid(s, p, b);
      SetLater(s, p, b);
      SetTwice(s, p, b, b.(state := SYN_SENT));
      s := s.Set(p, b);
      if enqueued == Ok {
        s := s.Set(p, b.(state := SYN_SENT));
        if hadPort { s := s.(bound := Without(s.bound, p)); }
        s := s.(active := [p] + s.active, changed := true);
      }
      return enqueued;
    }

    /** tcp_listen_with_backlog, when there is memory for a listening block. */
    method ListenOn(p: Ptr) returns (err: Err)
      requires Valid(s) && p in s.pcbs
      modifies `s
      ensures s == if old(s).pcbs[p].state != CLOSED then old(s) else Listening(old(s), p)
      ensures Valid(s) && Later(old(s), s)
    {
      LaterSame(s);
      OnOneList(s, p);
      ClosedLater(s, p);
      if s.pcbs[p].state != CLOSED { return Closed; }
      ListeningValid(s, p);
      var l := s.unused;
      if s.pcbs[p].bound { s := s.(bound := Without(s.bound, p)); }
      s := s.(pcbs := s.pcbs - {p});
      s := s.(listeners := s.listeners[l := 0], unused := l + 1);
      return Ok;
    }

    /** tcp_abandon.  The error callback is the last step. */
    method Abandon(p: Ptr, onError: seq<Call>)
      requires Valid(s) && p in s.pcbs
      modifies `s
      ensures s == Abandoned(old(s), p, onError) && Valid(s) && Later(old(s), s) && p !in s.pcbs
      decreases onError, 1
    {
      ghost var s0 := s;
      assert Placed(s0, p);
      var lastState := s.pcbs[p].state;
      if Active(s.pcbs[p].state) { RemoveActive(p); } else { FreeIdle(p); }
      ghost var s1 := s;
      if lastState != TIME_WAIT {
        Run(onError);
        LaterLater(s0, s1, s);
      }
      assert p in s.pcbs ==> Kept(s1, s, p);
    }

    /** tcp_close_shutdown_fin */
    method CloseFin(p: Ptr, sent: Err) returns (err: Err)
      requires Valid(s) && p in s.pcbs
      modifies `s
      ensures s == FinSent(old(s), p, sent) && Valid(s) && Later(old(s), s) && p in s.pcbs
      ensures s.pcbs.Keys == old(s).pcbs.Keys && s.active == old(s).active && s.changed == old(s).changed
      ensures err == if old(s).pcbs[p].state in {SYN_RCVD, ESTABLISHED, CLOSE_WAIT} && sent != OutOfMemory then sent else Ok
    {
      FinSentValid(s, p, sent);
      match s.pcbs[p].state {
        case SYN_RCVD =>
          if sent == Ok {
            AcceptBacklog(p);
            s := s.Set(p, s.pcbs[p].(state := FIN_WAIT_1));
          }
        case ESTABLISHED =>
          if sent == Ok { s := s.Set(p, s.pcbs[p].(state := FIN_WAIT_1)); }
        case CLOSE_WAIT =>
          if sent == Ok { s := s.Set(p, s.pcbs[p].(state := LAST_ACK)); }
        case _ => return Ok;
      }
      if sent == OutOfMemory {
        s := s.Set(p, s.pcbs[p].(conn := s.pcbs[p].conn.(closePend := true)));
        return Ok;
      }
      return sent;
    }

    /** tcp_close of a block that is not listening: with data unread it is reset and deallocated. */
    method Close(p: Ptr, sent: Err) returns (err: Err)
      requires Valid(s) && p in s.pcbs
      modifies `s
      ensures s == AfterClose(old(s), p, sent) && Valid(s) && Later(old(s), s)
      ensures sent == Ok || sent == OutOfMemory ==> err == Ok
    {
      ghost var s0 := s;
      FlaggedValid(s, p);
      s := s.Set(p, NoMoreData(s.pcbs[p]));
      ghost var s1 := s;
      var state := s.pcbs[p].state;
      if (state == ESTABLISHED || state == CLOSE_WAIT) && (s.pcbs[p].refused > 0 || s.pcbs[p].conn.unread) {
        RemoveActive(p);
        err := Ok;
      } else if state == CLOSED {
        FreeIdle(p);
        err := Ok;
      } else if state == SYN_SENT {
        RemoveActive(p);
        err := Ok;
      } else {
        err := CloseFin(p, sent);
      }
      LaterLater(s0, s1, s);
    }

    /** Carries out what a callback calls. */
    method Run(calls: seq<Call>)
      requires Valid(s)
      modifies `s
      ensures s == After(old(s), calls) && Valid(s) && Later(old(s), s)
      decreases calls, 0
    {
      if calls == [] {
        LaterSame(s);
        return;
      }
      ghost var s0 := s;
      Do(calls[0]);
      ghost var s1 := s;
      Run(calls[1..]);
      LaterLater(s0, s1, s);
    }

    method Do(c: Call)
      requires Valid(s)
      modifies `s
      ensures s == AfterCall(old(s), c) && Valid(s) && Later(old(s), s)
      decreases c, 0
    {
      LaterSame(s);
      match c {
        case Abort(p, onError) => if p in s.pcbs { Abandon(p, onError); }
        case Close(p, sent) => if p in s.pcbs { var _ := Close(p, sent); }
        case CloseListener(l) => if l in s.listeners { RemoveListener(l); }
        case New => var _ := Alloc();
        case Bind(p) => if p in s.pcbs && s.pcbs[p].state == CLOSED && p !in s.bound { BindPcb(p); }
        case Connect(p, enqueued) => if p in s.pcbs { var _ := ConnectPcb(p, enqueued); }
        case Listen(p) => if p in s.pcbs { var _ := ListenOn(p); }
        case BacklogDelayed(p) => if p in s.pcbs && MayDelay(s, p) { DelayBacklog(p); }
        case BacklogAccepted(p) => if p in s.pcbs { AcceptBacklog(p); }
      }
    }

    // ---- steps of lwip/core/tcp_in.c ------------------------------------------------------------

    /** tcp_listen_input: a SYN for a listener, dropped if its backlog is exceeded. */
    method SynArrives(l: Ptr, backlog: byte) returns (p: Ptr)
      requires Valid(s) && l in s.listeners
      modifies `s
      ensures Valid(s)
      ensures if old(s).listeners[l] >= backlog then p == NULL && s == old(s)
              else p == old(s).unused && s == SynReceived(old(s), l)
    {
      if s.listeners[l] >= backlog { return NULL; }
      SynReceivedValid(s, l);
      p := s.unused;
      s := SynReceived(s, l);
    }

    /** tcp_process: the handshake is complete.  The connection leaves the backlog before the
        application hears of it; it is aborted if the listener is gone or the application does not
        accept it.  `dangling` tells that a deallocated block is used. */
    method Established(p: Ptr, onError: seq<Call>) returns (err: Err, dangling: bool)
      requires Valid(s) && p in s.pcbs && s.pcbs[p].state == SYN_RCVD
      modifies `s, `asked
      ensures Valid(s) && Later(old(s), s) && (err == Ok || err == Aborted)
      ensures var s1 := old(s).Set(p, old(s).pcbs[p].(state := ESTABLISHED));
              if s1.pcbs[p].listener == NULL then !dangling && err == Aborted && s == Abandoned(s1, p, onError)
              else
                var s2 := Accepted(s1, p);
                var r := app(Accept(p), s2);
                var s3 := After(s2, r.calls);
                && !s2.pcbs[p].backlogPend
                && (dangling <==> Careless(app, Accept(p), s2))
                && (err == Ok <==> r.answer == Ok)
                && s == (if p in s3.pcbs && r.answer != Ok && r.answer != Aborted then Abandoned(s3, p, onError) else s3)
                && asked == old(asked) + [Question(Accept(p), s2)]
    {
      ghost var s0 := s;
      Touch(s, p, s.pcbs[p].(state := ESTABLISHED));
      s := s.Set(p, s.pcbs[p].(state := ESTABLISHED));
      ghost var s1 := s;
      dangling := false;
      if s.pcbs[p].listener == NULL {
        err := BadValue;
      } else {
        LeftBacklog(s, p);
        AcceptBacklog(p);
        ghost var s2 := s;
        LaterLater(s0, s1, s2);
        err := React(Accept(p));
        LaterLater(s0, s2, s);
      }
      ghost var s3 := s;
      if err == Ok { return Ok, p !in s.pcbs; }
      if err != Aborted {
        if p !in s.pcbs { return Aborted, true; }
        Abandon(p, onError);
        LaterLater(s0, s3, s);
      }
      return Aborted, false;
    }

    /** tcp_process: both sides have closed, the block is purged and enters TIME_WAIT. */
    method EnterTimeWait(p: Ptr)
      requires Valid(s) && p in s.pcbs && Active(s.pcbs[p].state)
      modifies `s
      ensures s == Waits(Purged(old(s), p), p) && Valid(s)
    {
      PurgedShape(s, p);
      Purge(p);
      WaitsValid(s, p);
      s := Waits(s, p);
    }

    // ---- timers -----------------------------------------------------------------------------------

    /** Calls the application. */
    method React(e: Event) returns (answer: Err)
      requires Valid(s)
      modifies `s, `asked
      ensures s == After(old(s), app(e, old(s)).calls) && Valid(s) && Later(old(s), s)
      ensures answer == app(e, old(s)).answer && asked == old(asked) + [Question(e, old(s))]
    {
      asked := asked + [Question(e, s)];
      var r := app(e, s);
      Run(r.calls);
      answer := r.answer;
    }

    /** tcp_slowtmr */
    method SlowTimer()
      requires Valid(s)
      modifies `s, `asked
      ensures Valid(s) && s == SlowEnd(app, sender, old(s)) && asked == old(asked) + SlowRun(app, sender, old(s)).asked
    {
      ghost var end := SlowRun(app, sender, s);
      GlobalsValid(s, s.changed, NextStamp(s), NextTick(s));
      s := s.(timerCtr := NextStamp(s), ticks := NextTick(s));
      NoNull(s);
      WalkStarts(s.active);
      var prev, pcb := NULL, Head(s.active);
      ghost var k := 0;
      while pcb != NULL
        invariant SlowGoing(app, sender, end, old(asked), s, asked) && WalkAt(s.active, k, prev, pcb) && Dealt(s, k)
        decreases |Stale(s)|, |s.active| - k
      {
        NoNull(s);
        StepIs(s.active, k, prev, pcb);
        if s.pcbs[pcb].lastTimer == s.timerCtr {
          prev, pcb := pcb, Head(Behind(s.active, pcb));
          k := k + 1;
        } else {
          SlowGoesOn(app, sender, end, old(asked), s, asked, k, prev, pcb);
          prev, pcb, k := SlowTick(prev, pcb, k);
        }
      }
      SlowOver(app, sender, end, old(asked), s, asked, k);
      TimeWaitTimer();
    }

    /** One active block in tcp_slowtmr: it expires, or its connection may be polled. */
    method SlowTick(prev0: Ptr, pcb0: Ptr, ghost k0: nat) returns (prev: Ptr, pcb: Ptr, ghost k: nat)
      requires Valid(s) && WalkAt(s.active, k0, prev0, pcb0) && Dealt(s, k0)
      requires k0 < |s.active| && pcb0 in s.pcbs && s.pcbs[pcb0].lastTimer != s.timerCtr
      modifies `s, `asked
      ensures Valid(s) && WalkAt(s.active, k, prev, pcb) && Dealt(s, k)
      ensures s == SlowStep(app, sender, old(s), pcb0).stack && asked == old(asked) + SlowStep(app, sender, old(s), pcb0).asked
    {
      ghost var s1 := s;
      var expired := Stamp(prev0, pcb0, k0);
      GoneAfterFlag(s1, pcb0, s.pcbs[pcb0]);
      if expired {
        prev, pcb, k := Expire(prev0, pcb0, k0);
      } else {
        prev, pcb, k := Poll(pcb0, Head(Behind(s.active, pcb0)), k0 + 1);
      }
    }

    /** The first steps for an active block: the stamp, the checks, and what the sender does. */
    method Stamp(prev: Ptr, pcb: Ptr, ghost k: nat) returns (expired: bool)
      requires Valid(s) && WalkAt(s.active, k, prev, pcb) && Dealt(s, k) && k < |s.active| && pcb in s.pcbs
      modifies `s
      ensures Valid(s) && expired == Expired(old(s).pcbs[pcb], s.ticks)
      ensures var b := old(s).pcbs[pcb];
              s == old(s).Set(pcb, b.(lastTimer := s.timerCtr, conn := b.conn.(sender := if expired then b.conn.sender else sender(pcb, old(s)))))
      ensures Dealt(s, k) && Dealt(s, k + 1) && WalkAt(s.active, k + 1, pcb, Head(Behind(s.active, pcb)))
    {
      NoNull(s);
      StepIs(s.active, k, prev, pcb);
      var b := s.pcbs[pcb];
      expired := CheckBlock(b);
      var b' := b.(lastTimer := s.timerCtr, conn := b.conn.(sender := if expired then b.conn.sender else sender(pcb, s)));
      SimilarValid(s, pcb, b');
      DealtStamped(s, k, pcb, b');
      s := s.Set(pcb, b');
    }

    /** The checks of tcp_slowtmr for one active block. */
    method CheckBlock(b: Pcb) returns (remove: bool)
      ensures remove == Expired(b, s.ticks)
    {
      var idle, pcbRemove := Low32(s.ticks - b.conn.tmr), 0;
      if b.state == SYN_SENT && b.conn.sender.nrtx >= TCP_SYNMAXRTX {
        pcbRemove := pcbRemove + 1;
      } else if b.conn.sender.nrtx >= TCP_MAXRTX {
        pcbRemove := pcbRemove + 1;
      } else if b.conn.sender.persistBackoff > 0 && b.conn.sender.persistProbe >= TCP_MAXRTX {
        pcbRemove := pcbRemove + 1;
      }
      if b.state == FIN_WAIT_2 && b.conn.rxClosed && idle > FIN_WAIT_TIMEOUT / SLOW_INTERVAL {
        pcbRemove := pcbRemove + 1;
      }
      if b.conn.keepAlive && (b.state == ESTABLISHED || b.state == CLOSE_WAIT) {
        if idle > (b.conn.keepIdle + KEEP_DURATION) / SLOW_INTERVAL { pcbRemove := pcbRemove + 1; }
      }
      if b.state == SYN_RCVD && idle > SYN_RCVD_TIMEOUT / SLOW_INTERVAL {
        pcbRemove := pcbRemove + 1;
      }
      if b.state == LAST_ACK && idle > 2 * MSL / SLOW_INTERVAL {
        pcbRemove := pcbRemove + 1;
      }
      remove := pcbRemove != 0;
    }

    /** The removal in tcp_slowtmr: purge, unlink, deallocate, tell the application. */
    method Expire(prev0: Ptr, pcb0: Ptr, ghost k0: nat) returns (prev: Ptr, pcb: Ptr, ghost k: nat)
      requires Valid(s) && WalkAt(s.active, k0, prev0, pcb0) && Dealt(s, k0) && k0 < |s.active| && pcb0 in s.pcbs
      modifies `s, `asked
      ensures Valid(s) && WalkAt(s.active, k, prev, pcb) && Dealt(s, k)
      ensures var s1 := Gone(old(s), pcb0).(changed := false);
              s == After(s1, app(Failed(pcb0), s1).calls) && asked == old(asked) + [Question(Failed(pcb0), s1)]
    {
      NoNull(s);
      StepIs(s.active, k0, prev0, pcb0);
      UnlinkIs(s.active, k0, prev0, pcb0);
      DealtGone(s, k0, pcb0);
      GoneValid(s, pcb0);
      GlobalsValid(Gone(s, pcb0), false, s.timerCtr, s.ticks);
      pcb := Unlink(prev0, pcb0, k0);
      prev, k := prev0, k0;
      ghost var s2 := s;
      var _ := React(Failed(pcb0));
      WalkLater(s2, s, k0, prev0, pcb);
      if s.changed {
        prev, pcb, k := NULL, Head(s.active), 0;
      }
    }

    /** Takes an expired block out of memory; `prev` is the one before it on the list. */
    method Unlink(prev: Ptr, pcb: Ptr, ghost k: nat) returns (next: Ptr)
      requires Valid(s) && WalkAt(s.active, k, prev, pcb) && k < |s.active| && pcb in s.pcbs
      modifies `s
      ensures s == Gone(old(s), pcb).(changed := false) && next == Head(Behind(old(s).active, pcb))
    {
      NoNull(s);
      StepIs(s.active, k, prev, pcb);
      UnlinkIs(s.active, k, prev, pcb);
      GoneAfterPurge(s, pcb);
      assert Placed(s, pcb);
      OnOneList(s, pcb);
      Purge(pcb);
      next := Head(Behind(s.active, pcb));
      if prev != NULL {
        assert pcb != s.active[0];
        s := s.(active := UpTo(s.active, prev) + Behind(s.active, pcb));
      } else {
        assert pcb == s.active[0];
        s := s.(active := Behind(s.active, pcb));
      }
      s := s.(pcbs := s.pcbs - {pcb});
      s := s.(changed := false);
    }

    /** The end of a round of tcp_slowtmr: the application is polled now and then.  `prev` has just
        been dealt with, and `pcb` is the next block. */
    method Poll(prev0: Ptr, pcb0: Ptr, ghost k0: nat) returns (prev: Ptr, pcb: Ptr, ghost k: nat)
      requires Valid(s) && 0 < k0 && WalkAt(s.active, k0, prev0, pcb0) && Dealt(s, k0) && prev0 in s.pcbs
      modifies `s, `asked
      ensures Valid(s) && WalkAt(s.active, k, prev, pcb) && Dealt(s, k)
      ensures s == AfterPoll(app, sender, old(s), prev0).stack && asked == old(asked) + AfterPoll(app, sender, old(s), prev0).asked
    {
      ghost var s1 := s;
      prev, pcb, k := prev0, pcb0, k0;
      var b := s.pcbs[prev].(conn := s.pcbs[prev].conn.(pollTmr := More(s.pcbs[prev].conn.pollTmr)));
      var due := b.conn.pollTmr >= b.conn.pollInterval;
      if due { b := b.(conn := b.conn.(pollTmr := 0)); }
      Touch(s, prev, b);
      s := s.Set(prev, b);
      WalkLater(s1, s, k0, prev0, pcb0);
      if due { prev, pcb, k := PollNow(prev, pcb, k); }
    }

    /** The poll callback, and what follows it. */
    method PollNow(prev0: Ptr, pcb0: Ptr, ghost k0: nat) returns (prev: Ptr, pcb: Ptr, ghost k: nat)
      requires Valid(s) && 0 < k0 && WalkAt(s.active, k0, prev0, pcb0) && Dealt(s, k0)
      modifies `s, `asked
      ensures Valid(s) && WalkAt(s.active, k, prev, pcb) && Dealt(s, k)
      ensures var o := AfterPollNow(app, sender, old(s).(changed := false), prev0);
              s == o.stack && asked == old(asked) + o.asked
    {
      prev, pcb, k := prev0, pcb0, k0;
      GlobalsValid(s, false, s.timerCtr, s.ticks);
      s := s.(changed := false);
      ghost var s1 := s;
      PolledExists(s, app(Polled(prev), s).calls, prev);
      var answer := React(Polled(prev));
      WalkLater(s1, s, k0, prev0, pcb0);
      if s.changed {
        prev, pcb, k := NULL, Head(s.active), 0;
      } else if answer == Ok {
        ghost var s2 := s;
        var b := s.pcbs[prev].(conn := s.pcbs[prev].conn.(sender := sender(prev, s)));
        Touch(s, prev, b);
        s := s.Set(prev, b);
        WalkLater(s2, s, k0, prev0, pcb0);
      }
    }

    /** The end of tcp_slowtmr: blocks that were in TIME_WAIT for long enough, and only those, are
        deallocated. */
    method TimeWaitTimer()
      requires Valid(s)
      modifies `s
      ensures Valid(s) && s == TimeWaited(old(s))
    {
      ghost var s0 := s;
      NoNull(s);
      WalkStarts(s.tw);
      var prev, pcb := NULL, Head(s.tw);
      ghost var j: nat, k: nat := 0, 0;
      assert s.tw[..0] == [] && s.tw[0..] == s.tw;
      while pcb != NULL
        invariant Sweeping(s0, s, s0.tw, j, k)
        invariant WalkAt(s.tw, k, prev, pcb) && (k == |s.tw| <==> j == |s0.tw|)
        decreases |s0.tw| - j
      {
        prev, pcb, j, k := SweepTick(prev, pcb, s0, s0.tw, j, k);
      }
      SweptAll(s0, s);
    }

    /** One block in TIME_WAIT. */
    method SweepTick(prev0: Ptr, pcb0: Ptr, ghost s0: Stack, ghost l: seq<Ptr>, ghost j0: nat, ghost k0: nat)
      returns (prev: Ptr, pcb: Ptr, ghost j: nat, ghost k: nat)
      requires Valid(s0) && Sweeping(s0, s, l, j0, k0)
      requires WalkAt(s.tw, k0, prev0, pcb0) && k0 < |s.tw| && j0 < |l|
      modifies `s
      ensures Sweeping(s0, s, l, j, k)
      ensures WalkAt(s.tw, k, prev, pcb) && (k == |s.tw| <==> j == |l|) && j == j0 + 1
    {
      NoNull(s);
      StepIs(s.tw, k0, prev0, pcb0);
      UnlinkIs(s.tw, k0, prev0, pcb0);
      assert s.tw[k0..][0] == l[j0..][0];
      pcb := Head(Behind(s.tw, pcb0));
      j := j0 + 1;
      if Low32(s.ticks - s.pcbs[pcb0].conn.tmr) > 2 * MSL / SLOW_INTERVAL {
        SweepDrops(s0, s, l, j0, k0);
        k, prev := k0, prev0;
        UnlinkTimeWait(prev0, pcb0, k0);
      } else {
        SweepKeeps(s0, s, l, j0, k0);
        k, prev := k0 + 1, pcb0;
      }
    }

    /** Takes a block in TIME_WAIT out of memory; `prev` is the one before it on the list. */
    method UnlinkTimeWait(prev: Ptr, pcb: Ptr, ghost k: nat)
      requires Valid(s) && WalkAt(s.tw, k, prev, pcb) && k < |s.tw| && pcb in s.pcbs
      modifies `s
      ensures s == Gone(old(s), pcb)
    {
      NoNull(s);
      StepIs(s.tw, k, prev, pcb);
      UnlinkIs(s.tw, k, prev, pcb);
      assert Placed(s, pcb);
      OnOneList(s, pcb);
      Purge(pcb);
      if prev != NULL {
        assert pcb != s.tw[0];
        s := s.(tw := UpTo(s.tw, prev) + Behind(s.tw, pcb));
      } else {
        assert pcb == s.tw[0];
        s := s.(tw := Behind(s.tw, pcb));
      }
      s := s.(pcbs := s.pcbs - {pcb});
    }

    /** tcp_fasttmr.  `dangling` tells that a deallocated block is used; the method stops there. */
    method FastTimer(sent: (Ptr, Stack) -> Err) returns (dangling: bool)
      requires Valid(s)
      modifies `s, `asked
      ensures Valid(s) && s == FastRun(app, sent, old(s)).stack && dangling == FastRun(app, sent, old(s)).dangling
      ensures asked == old(asked) + FastRun(app, sent, old(s)).asked
    {
      ghost var end := FastRun(app, sent, s);
      GlobalsValid(s, s.changed, NextStamp(s), s.ticks);
      s := s.(timerCtr := NextStamp(s));
      NoNull(s);
      WalkStarts(s.active);
      var pcb := Head(s.active);
      ghost var prev, k := NULL, 0;
      while pcb != NULL
        invariant FastGoing(app, sent, end, old(asked), s, asked) && WalkAt(s.active, k, prev, pcb) && Dealt(s, k)
        decreases |Stale(s)|, |s.active| - k
      {
        NoNull(s);
        StepIs(s.active, k, prev, pcb);
        if s.pcbs[pcb].lastTimer != s.timerCtr {
          FastGoesOn(app, sent, end, old(asked), s, asked, k, prev, pcb);
          dangling, pcb, prev, k := FastTick(pcb, sent, prev, k);
          if dangling { return; }
        } else {
          prev := pcb;
          pcb := Head(Behind(s.active, pcb));
          k := k + 1;
        }
      }
      FastOver(app, sent, end, old(asked), s, asked, k);
      dangling := false;
    }

    /** One active block in tcp_fasttmr: delayed ACK, pending FIN, refused data. */
    method FastTick(pcb0: Ptr, sent: (Ptr, Stack) -> Err, ghost prev0: Ptr, ghost k0: nat)
      returns (dangling: bool, pcb: Ptr, ghost prev: Ptr, ghost k: nat)
      requires Valid(s) && WalkAt(s.active, k0, prev0, pcb0) && Dealt(s, k0)
      requires k0 < |s.active| && pcb0 in s.pcbs && s.pcbs[pcb0].lastTimer != s.timerCtr
      modifies `s, `asked
      ensures Valid(s) && WalkAt(s.active, k, prev, pcb) && Dealt(s, k)
      ensures s == FastStep(app, sent, old(s), pcb0).stack && dangling == FastStep(app, sent, old(s), pcb0).dangling
      ensures asked == old(asked) + FastStep(app, sent, old(s), pcb0).asked
    {
      NoNull(s);
      StepIs(s.active, k0, prev0, pcb0);
      FastStampedIs(s, pcb0);
      DealtStamped(s, k0, pcb0, FastStamped(s, pcb0));
      var closing, c := s.pcbs[pcb0].conn.closePend, s.pcbs[pcb0].conn;
      s := s.Set(pcb0, s.pcbs[pcb0].(lastTimer := s.timerCtr, conn := c.(ackDelay := false, closePend := false)));
      pcb := Head(Behind(s.active, pcb0));
      prev, k := pcb0, k0 + 1;
      ghost var s2 := s;
      LaterSame(s);
      if closing { var _ := CloseFin(pcb0, sent(pcb0, s)); }
      WalkLater(s2, s, k, prev, pcb);
      dangling := false;
      if s.pcbs[pcb0].refused > 0 { dangling, pcb, prev, k := FastRefused(pcb0, pcb, k); }
    }

    /** The refused data of one block, after which the walk may have to start again. */
    method FastRefused(p: Ptr, next: Ptr, ghost k0: nat) returns (dangling: bool, pcb: Ptr, ghost prev: Ptr, ghost k: nat)
      requires Valid(s) && WalkAt(s.active, k0, p, next) && Dealt(s, k0) && p in s.pcbs
      modifies `s, `asked
      ensures Valid(s) && WalkAt(s.active, k, prev, pcb) && Dealt(s, k)
      ensures Valid(old(s).(changed := false))
      ensures var o := AllOffered(app, old(s).(changed := false), p);
              s == o.stack && dangling == o.dangling && asked == old(asked) + o.asked
    {
      GlobalsValid(s, false, s.timerCtr, s.ticks);
      s := s.(changed := false);
      ghost var s1 := s;
      var _, d := ProcessRefused(p);
      dangling := d;
      WalkLater(s1, s, k0, p, next);
      pcb, prev, k := next, p, k0;
      if s.changed {
        pcb, prev, k := Head(s.active), NULL, 0;
      }
    }

    /** tcp_process_refused_data, as far as lists are concerned: one piece of data after the other
        is offered to the application, and the end of the stream after the last one.  The method
        stops where a deallocated block would be used. */
    method ProcessRefused(p: Ptr) returns (err: Err, dangling: bool)
      requires Valid(s) && p in s.pcbs
      modifies `s, `asked
      ensures Valid(s) && Later(old(s), s)
      ensures s == AllOffered(app, old(s), p).stack && dangling == AllOffered(app, old(s), p).dangling
      ensures (!dangling ==> err == AllOffered(app, old(s), p).err) && asked == old(asked) + AllOffered(app, old(s), p).asked
    {
      ghost var end := AllOffered(app, s, p);
      AllOfferedIs(app, s, p);
      while s.pcbs[p].refused > 0
        invariant Offering(app, end, old(asked), s, asked, p)
        decreases s.pcbs[p].refused
      {
        OfferingGoesOn(app, end, old(asked), s, asked, p);
        err, dangling := OfferPiece(p);
        if dangling || err != Ok { return; }
      }
      return Ok, false;
    }

    method OfferPiece(p: Ptr) returns (err: Err, dangling: bool)
      requires Valid(s) && p in s.pcbs && 0 < s.pcbs[p].refused
      modifies `s, `asked
      ensures s == PieceOffered(app, old(s), p).stack && dangling == PieceOffered(app, old(s), p).dangling
      ensures err == PieceOffered(app, old(s), p).err && asked == old(asked) + PieceOffered(app, old(s), p).asked
    {
      var fin, pieces := s.pcbs[p].conn.refusedFin, s.pcbs[p].refused;
      var rest := pieces - 1;
      Touch(s, p, s.pcbs[p].(refused := rest));
      s := s.Set(p, s.pcbs[p].(refused := rest));
      err := React(Received(p));
      dangling := p !in s.pcbs && err != Aborted;
      if dangling { return; }
      if err == Ok {
        if fin && rest == 0 { err, dangling := OfferEnd(p); }
      } else if err != Aborted {
        s := s.Set(p, s.pcbs[p].(refused := pieces));
        err := InProgress;
      }
    }

    /** The FIN behind the last piece. */
    method OfferEnd(p: Ptr) returns (err: Err, dangling: bool)
      requires Valid(s) && p in s.pcbs
      modifies `s, `asked
      ensures var o := EndOffered(app, old(s), p, []);
              s == o.stack && err == o.err && dangling == o.dangling && asked == old(asked) + o.asked
    {
      err := React(AtEnd(p));
      dangling := p !in s.pcbs && err != Aborted;
      if err != Aborted { err := Ok; }
    }
  }

  /** The code as it is: an established connection with two pieces of refused data is closed in the
      callback, deallocated by tcp_close, and used after that. */
  method CloseInCallback() returns (dangling: bool)
    ensures dangling
  {
    var t := new Tcp(Closing, (p, s) => Sender(0, 0, 0));
    var b := Fresh(t.s).(state := ESTABLISHED, refused := 2);
    t.s := t.s.Set(1, b).(active := [1], unused := 2);
    assert Placed(t.s, 1);
    ClosedAtOnce(PieceTaken(t.s, 1), 1, Ok);
    var err;
    err, dangling := t.ProcessRefused(1);
  }
}
