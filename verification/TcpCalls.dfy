/** Calls made from callbacks of lwip/core/tcp.c. */
module TcpCalls {
  // What applications may call from a callback, and what these calls do.

  import opened Bytes
  import opened Errors
  import opened Lists
  import opened TcpPcbs

  /** A call an application makes from a callback.  `sent` and `enqueued` tell how tcp_send_fin and
      tcp_enqueue_flags end; `onError` is what the error callback of the block does in turn. */
  datatype Call =
    | Abort(p: Ptr, onError: seq<Call>)
    | Close(p: Ptr, sent: Err)
    | CloseListener(l: Ptr)
    | New
    | Bind(p: Ptr)
    | Connect(p: Ptr, enqueued: Err)
    | Listen(p: Ptr)
    | BacklogDelayed(p: Ptr)
    | BacklogAccepted(p: Ptr)

  datatype Event = Accept(p: Ptr) | Failed(p: Ptr) | Polled(p: Ptr) | Received(p: Ptr) | AtEnd(p: Ptr)

  datatype Reaction = Reaction(calls: seq<Call>, answer: Err)

  /** How an application reacts to an event, given all it can know. */
  type Application = (Event, Stack) -> Reaction

  /** An application that leaves connections alone in its callbacks. */
  ghost predicate Quiet(app: Application) {
    forall e, s :: app(e, s).calls == []
  }

  /** A block is purged, taken from its list and deallocated. */
  function Removed(s: Stack, p: Ptr): Stack
    requires p in s.pcbs
  {
    Gone(s, p).(changed := s.changed || Active(s.pcbs[p].state))
  }

  /** tcp_abandon */
  function Abandoned(s: Stack, p: Ptr, onError: seq<Call>): Stack
    requires p in s.pcbs
    decreases onError, 1
  {
    if s.pcbs[p].state == TIME_WAIT then Removed(s, p) else After(Removed(s, p), onError)
  }

  /** tcp_close resets the connection and deallocates the block at once. */
  predicate ClosesAtOnce(b: Pcb) {
    b.state == CLOSED || b.state == SYN_SENT || ((b.conn.unread || 0 < b.refused) && (b.state == ESTABLISHED || b.state == CLOSE_WAIT))
  }

  /** tcp_close */
  function AfterClose(s: Stack, p: Ptr, sent: Err): Stack
    requires p in s.pcbs
  {
    if ClosesAtOnce(s.pcbs[p]) then Removed(s, p) else FinSent(s.Set(p, NoMoreData(s.pcbs[p])), p, sent)
  }

  /** TF_RXCLOSED */
  function NoMoreData(b: Pcb): Pcb {
    b.(conn := b.conn.(rxClosed := true))
  }

  lemma {:induction false} FlaggedValid(s: Stack, p: Ptr)
    requires Valid(s) && p in s.pcbs
    ensures var s' := s.Set(p, NoMoreData(s.pcbs[p]));
            Valid(s') && Later(s, s') && Gone(s', p) == Gone(s, p)
  {
    var b := NoMoreData(s.pcbs[p]);
    SimilarValid(s, p, b);
    SetLater(s, p, b);
    GoneAfterFlag(s, p, b);
  }

  /** tcp_connect */
  function AfterConnect(s: Stack, p: Ptr, enqueued: Err): Stack
    requires p in s.pcbs
  {
    if s.pcbs[p].state != CLOSED then s
    else if enqueued != Ok then s.Set(p, s.pcbs[p].(bound := true)) else Connecting(s, p)
  }

  /** Calls with a block that does not exist any more, or that break an assertion, are not made. */
  function AfterCall(s: Stack, c: Call): Stack
    decreases c, 0
  {
    match c
    case Abort(p, onError) => if p in s.pcbs then Abandoned(s, p, onError) else s
    case Close(p, sent) => if p in s.pcbs then AfterClose(s, p, sent) else s
    case CloseListener(l) => if l in s.listeners then ListenerGone(s, l) else s
    case New => Born(s)
    case Bind(p) => if p in s.pcbs && s.pcbs[p].state == CLOSED && p !in s.bound then Bound(s, p) else s
    case Connect(p, enqueued) => if p in s.pcbs then AfterConnect(s, p, enqueued) else s
    case Listen(p) => if p in s.pcbs && s.pcbs[p].state == CLOSED then Listening(s, p) else s
    case BacklogDelayed(p) => if p in s.pcbs && MayDelay(s, p) then Delayed(s, p) else s
    case BacklogAccepted(p) => if p in s.pcbs then Accepted(s, p) else s
  }

  /** What a callback makes of the stack. */
  function After(s: Stack, calls: seq<Call>): Stack
    decreases calls, 0
  {
    if calls == [] then s else After(AfterCall(s, calls[0]), calls[1..])
  }

  lemma {:induction false} RemovedValid(s: Stack, p: Ptr)
    requires Valid(s) && p in s.pcbs
    ensures Valid(Removed(s, p)) && Later(s, Removed(s, p)) && p !in Removed(s, p).pcbs
  {
    assert Placed(s, p);
    GoneValid(s, p);
    GlobalsValid(Gone(s, p), s.changed || Active(s.pcbs[p].state), s.timerCtr, s.ticks);
    GoneLater(s, p, s.changed || Active(s.pcbs[p].state));
  }

  lemma {:induction false} AbandonedValid(s: Stack, p: Ptr, onError: seq<Call>)
    requires Valid(s) && p in s.pcbs
    ensures Valid(Abandoned(s, p, onError)) && Later(s, Abandoned(s, p, onError)) && p !in Abandoned(s, p, onError).pcbs
    decreases onError, 1
  {
    var s1 := Removed(s, p);
    assert Placed(s, p);
    RemovedValid(s, p);
    if s.pcbs[p].state != TIME_WAIT {
      AfterValid(s1, onError);
      LaterLater(s, s1, After(s1, onError));
      assert p in After(s1, onError).pcbs ==> Kept(s1, After(s1, onError), p);
    }
  }

  lemma {:induction false} CloseValid(s: Stack, p: Ptr, sent: Err)
    requires Valid(s) && p in s.pcbs
    ensures Valid(AfterClose(s, p, sent)) && Later(s, AfterClose(s, p, sent))
  {
    if ClosesAtOnce(s.pcbs[p]) {
      RemovedValid(s, p);
    } else {
      var s1 := s.Set(p, NoMoreData(s.pcbs[p]));
      FlaggedValid(s, p);
      FinSentValid(s1, p, sent);
      LaterLater(s, s1, FinSent(s1, p, sent));
    }
  }

  lemma {:induction false} ConnectValid(s: Stack, p: Ptr, enqueued: Err)
    requires Valid(s) && p in s.pcbs
    ensures Valid(AfterConnect(s, p, enqueued)) && Later(s, AfterConnect(s, p, enqueued))
  {
    LaterSame(s);
    if s.pcbs[p].state == CLOSED {
      var b := s.pcbs[p].(bound := true);
      SimilarValid(s, p, b);
      SetLater(s, p, b);
      ConnectingValid(s, p);
      ClosedLater(s, p);
    }
  }

  lemma {:induction false} CallValid(s: Stack, c: Call)
    requires Valid(s)
    ensures Valid(AfterCall(s, c)) && Later(s, AfterCall(s, c))
    decreases c, 0
  {
    LaterSame(s);
    match c {
      case Abort(p, onError) => if p in s.pcbs { AbandonedValid(s, p, onError); }
      case Close(p, sent) => if p in s.pcbs { CloseValid(s, p, sent); }
      case CloseListener(l) => if l in s.listeners { ListenerGoneValid(s, l); ListenerGoneLater(s, l); }
      case New => BornValid(s); NewLater(s);
      case Bind(p) => if p in s.pcbs && s.pcbs[p].state == CLOSED && p !in s.bound { BoundValid(s, p); ClosedLater(s, p); }
      case Connect(p, enqueued) => if p in s.pcbs { ConnectValid(s, p, enqueued); }
      case Listen(p) => if p in s.pcbs && s.pcbs[p].state == CLOSED { ListeningValid(s, p); ClosedLater(s, p); }
      case BacklogDelayed(p) => if p in s.pcbs && MayDelay(s, p) { DelayedValid(s, p); AcceptedLater(s, p); }
      case BacklogAccepted(p) => if p in s.pcbs { AcceptedValid(s, p); AcceptedLater(s, p); }
    }
  }

  /** Whatever a callback calls, in any order: counts and lists stay right, no block gets an old
      stamp, and a change of the list of active blocks is announced. */
  lemma {:induction false} AfterValid(s: Stack, calls: seq<Call>)
    requires Valid(s)
    ensures Valid(After(s, calls)) && Later(s, After(s, calls))
    decreases calls, 0
  {
    LaterSame(s);
    if calls != [] {
      var s1 := AfterCall(s, calls[0]);
      CallValid(s, calls[0]);
      AfterValid(s1, calls[1..]);
      LaterLater(s, s1, After(s1, calls[1..]));
    }
  }

  /** Scripts are carried out call by call, to their end. */
  lemma {:induction false} AfterBoth(s: Stack, a: seq<Call>, b: seq<Call>)
    ensures After(s, a + b) == After(After(s, a), b)
    decreases a
  {
    if a == [] {
      assert a + b == b;
    } else {
      assert (a + b)[1..] == a[1..] + b && (a + b)[0] == a[0];
      AfterBoth(AfterCall(s, a[0]), a[1..], b);
    }
  }

  lemma {:induction false} AfterOne(s: Stack, c: Call)
    ensures After(s, [c]) == AfterCall(s, c)
  {
    assert After(AfterCall(s, c), []) == AfterCall(s, c) && [c][1..] == [];
  }

  /** tcp_abandon deallocates the block and then, unless it was in TIME_WAIT, does what the error
      callback calls. */
  lemma {:induction false} AbandonTells(s: Stack, p: Ptr, onError: seq<Call>)
    requires Valid(s) && p in s.pcbs
    ensures var s1 := Abandoned(s, p, []);
            && s1.pcbs.Keys == s.pcbs.Keys - {p} && (forall q :: q in s1.pcbs ==> s1.pcbs[q] == s.pcbs[q])
            && Abandoned(s, p, onError) == if s.pcbs[p].state == TIME_WAIT then s1 else After(s1, onError)
  {
    GoneValid(s, p);
  }

  /** tcp_close of a connection that it does not deallocate: nothing more is received, and the FIN is on
      its way, or to be sent later. */
  lemma {:induction false} CloseMovesOn(s: Stack, p: Ptr, sent: Err)
    requires Valid(s) && p in s.pcbs && !ClosesAtOnce(s.pcbs[p])
    ensures var s1, b := AfterClose(s, p, sent), s.pcbs[p];
            && p in s1.pcbs && s1.pcbs[p].conn.rxClosed && s1.pcbs.Keys == s.pcbs.Keys
            && s1.pcbs[p].state == (if sent != Ok then b.state
                                    else match b.state case SYN_RCVD => FIN_WAIT_1 case ESTABLISHED => FIN_WAIT_1 case CLOSE_WAIT => LAST_ACK case _ => b.state)
            && (s1.pcbs[p].conn.closePend <==> b.conn.closePend || (sent == OutOfMemory && b.state in {SYN_RCVD, ESTABLISHED, CLOSE_WAIT}))
  {
    FlaggedValid(s, p);
    FinSentBlock(s.Set(p, NoMoreData(s.pcbs[p])), p, sent);
    FinSentValid(s.Set(p, NoMoreData(s.pcbs[p])), p, sent);
  }

  /** A new block is in state CLOSED; binding puts a closed block on the list of bound ones. */
  lemma {:induction false} NewAndBindWork(s: Stack, p: Ptr)
    requires Valid(s) && p in s.pcbs
    ensures var s1 := AfterCall(s, New);
            s.unused !in s.pcbs && s.unused in s1.pcbs && s1.pcbs[s.unused].state == CLOSED
    ensures s.pcbs[p].state == CLOSED && p !in s.bound ==> p in AfterCall(s, Bind(p)).bound
  {
    BornValid(s);
    if s.pcbs[p].state == CLOSED && p !in s.bound { BoundValid(s, p); }
  }

  /** A closed block that connects is active and in state SYN_SENT. */
  lemma {:induction false} ConnectWorks(s: Stack, p: Ptr)
    requires Valid(s) && p in s.pcbs && s.pcbs[p].state == CLOSED
    ensures var s1 := AfterCall(s, Connect(p, Ok));
            p in s1.active && p in s1.pcbs && s1.pcbs[p].state == SYN_SENT
  {
    ConnectingValid(s, p);
  }

  /** A closed block that listens is replaced by a listening one with an empty backlog. */
  lemma {:induction false} ListenWorks(s: Stack, p: Ptr)
    requires Valid(s) && p in s.pcbs && s.pcbs[p].state == CLOSED
    ensures var s1 := AfterCall(s, Listen(p));
            p !in s1.pcbs && s.unused !in s.listeners && s.unused in s1.listeners && s1.listeners[s.unused] == 0
  {
    ListeningValid(s, p);
  }

  /** A connection of a listener is counted after it was delayed, and not after it was accepted. */
  lemma {:induction false} BacklogCallsWork(s: Stack, p: Ptr)
    requires Valid(s) && p in s.pcbs && s.pcbs[p].listener != NULL
    ensures MayDelay(s, p) ==> p in AfterCall(s, BacklogDelayed(p)).pcbs && AfterCall(s, BacklogDelayed(p)).pcbs[p].backlogPend
    ensures p in AfterCall(s, BacklogAccepted(p)).pcbs && !AfterCall(s, BacklogAccepted(p)).pcbs[p].backlogPend
  {
    if MayDelay(s, p) { DelayedValid(s, p); }
    LeftBacklog(s, p);
  }

  /** Closing a listener takes it from all connections and from the stack. */
  lemma {:induction false} CloseListenerWorks(s: Stack, l: Ptr)
    requires Valid(s) && l in s.listeners
    ensures var s1 := AfterCall(s, CloseListener(l));
            l !in s1.listeners && forall q :: q in s1.pcbs ==> s1.pcbs[q].listener != l
  {
    ListenerGoneValid(s, l);
    assert Backlog(s, l);
    forall q | q in s.pcbs ensures ListenerGone(s, l).pcbs[q].listener != l { assert Placed(s, q); }
  }

  /** The callback has its own block deallocated and does not answer ERR_ABRT. */
  predicate Careless(app: Application, e: Event, s: Stack) {
    var r := app(e, s);
    e.p !in After(s, r.calls).pcbs && r.answer != Aborted
  }

  /** A callback that was made, and the state in which it was. */
  datatype Question = Question(event: Event, stack: Stack)

  ghost predicate SomeCareless(app: Application, asked: seq<Question>) {
    exists q :: q in asked && Careless(app, q.event, q.stack)
  }

  lemma {:induction false} CarelessBoth(app: Application, qs: seq<Question>, rs: seq<Question>)
    ensures SomeCareless(app, qs + rs) <==> SomeCareless(app, qs) || SomeCareless(app, rs)
  {
    forall q | q in qs || q in rs ensures q in qs + rs {}
  }

  lemma {:induction false} OneAsked(app: Application, q: Question)
    ensures SomeCareless(app, [q]) <==> Careless(app, q.event, q.stack)
  {
    assert q in [q];
  }

  lemma {:induction false} TwoAsked(app: Application, q: Question, r: Question)
    ensures SomeCareless(app, [q, r]) <==> Careless(app, q.event, q.stack) || Careless(app, r.event, r.stack)
  {
    assert q in [q, r] && r in [q, r];
  }

  /** One piece of the data that were refused is taken from the block. */
  function PieceTaken(s: Stack, p: Ptr): Stack
    requires p in s.pcbs && 0 < s.pcbs[p].refused
  {
    s.Set(p, s.pcbs[p].(refused := s.pcbs[p].refused - 1))
  }

  /** tcp_close frees a connection with unread data, which no ERR_ABRT may tell. */
  lemma {:induction false} ClosedAtOnce(s: Stack, p: Ptr, sent: Err)
    requires p in s.pcbs
    ensures p !in After(s, [Close(p, sent)]).pcbs <==> ClosesAtOnce(s.pcbs[p])
  {
    var calls := [Close(p, sent)];
    assert calls[1..] == [];
    assert After(AfterCall(s, calls[0]), calls[1..]) == AfterCall(s, calls[0]);
  }

  /** An application that closes the connection when it is given data.  It has not called
      tcp_abort, so that the documentation of the callback does not let it answer ERR_ABRT. */
  function Closing(e: Event, s: Stack): Reaction {
    Reaction(if e.Received? then [Close(e.p, Ok)] else [], Ok)
  }

  lemma {:induction false} ClosingIsCareless(s: Stack, p: Ptr)
    requires p in s.pcbs && 0 < s.pcbs[p].refused
    ensures Careless(Closing, Received(p), PieceTaken(s, p)) <==> ClosesAtOnce(PieceTaken(s, p).pcbs[p])
  {
    ClosedAtOnce(PieceTaken(s, p), p, Ok);
  }
}
