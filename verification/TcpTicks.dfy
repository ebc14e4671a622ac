/** What the timers of lwip/core/tcp.c do, as functions. */
module TcpTicks {
  // The walks over lists that change under them are in `Tcp`.  Here the next block to deal with is
  // simply the first one on the list that has not been dealt with.

  import opened Bytes
  import opened Errors
  import opened Lists
  import opened TcpPcbs
  import opened TcpCalls
  import opened TcpTimers

  // ---- refused data ------------------------------------------------------------------------

  /** Refused data were offered: `asked` lists the callbacks made, and `dangling` tells that a
      deallocated block was used, where the story ends. */
  datatype Offered = Offered(stack: Stack, err: Err, asked: seq<Question>, dangling: bool)

  /** tcp_process_refused_data, one piece: it is taken from the block first, and put back if the
      application refuses it again. */
  function PieceOffered(app: Application, s: Stack, p: Ptr): Offered
    requires p in s.pcbs && 0 < s.pcbs[p].refused
  {
    var s1 := PieceTaken(s, p);
    var r := app(Received(p), s1);
    var s2, asked := After(s1, r.calls), [Question(Received(p), s1)];
    if r.answer == Aborted then Offered(s2, Aborted, asked, false)
    else if p !in s2.pcbs then Offered(s2, r.answer, asked, true)
    else if r.answer != Ok then Offered(s2.Set(p, s2.pcbs[p].(refused := s.pcbs[p].refused)), InProgress, asked, false)
    else if s.pcbs[p].conn.refusedFin && s1.pcbs[p].refused == 0 then EndOffered(app, s2, p, asked)
    else Offered(s2, Ok, asked, false)
  }

  /** The application is told of the end of the stream. */
  function EndOffered(app: Application, s: Stack, p: Ptr, asked: seq<Question>): Offered {
    var r := app(AtEnd(p), s);
    var s1 := After(s, r.calls);
    Offered(s1, if r.answer == Aborted then Aborted else Ok, asked + [Question(AtEnd(p), s)], r.answer != Aborted && p !in s1.pcbs)
  }

  /** tcp_process_refused_data: one piece after the other, until one is refused. */
  ghost function AllOffered(app: Application, s: Stack, p: Ptr): Offered
    requires Valid(s) && p in s.pcbs
    decreases s.pcbs[p].refused
  {
    if s.pcbs[p].refused == 0 then Offered(s, Ok, [], false) else
      var o := PieceOffered(app, s, p);
      PieceOfferedIs(app, s, p);
      if o.dangling || o.err != Ok then o else
        var rest := AllOffered(app, o.stack, p);
        Offered(rest.stack, rest.err, o.asked + rest.asked, rest.dangling)
  }

  lemma {:induction false} EndOfferedIs(app: Application, s: Stack, p: Ptr, q: Question)
    requires Valid(s) && p in s.pcbs && !Careless(app, q.event, q.stack)
    ensures var o := EndOffered(app, s, p, [q]);
            && Valid(o.stack) && Later(s, o.stack) && (o.dangling <==> SomeCareless(app, o.asked))
            && (!o.dangling && o.err == Ok ==> p in o.stack.pcbs)
  {
    AfterValid(s, app(AtEnd(p), s).calls);
    TwoAsked(app, q, Question(AtEnd(p), s));
  }

  lemma {:induction false} PieceOfferedIs(app: Application, s: Stack, p: Ptr)
    requires Valid(s) && p in s.pcbs && 0 < s.pcbs[p].refused
    ensures var o := PieceOffered(app, s, p);
            && Valid(o.stack) && Later(s, o.stack) && (o.dangling <==> SomeCareless(app, o.asked))
            && (!o.dangling && o.err == Ok ==> p in o.stack.pcbs && o.stack.pcbs[p].refused < s.pcbs[p].refused)
  {
    var s1 := PieceTaken(s, p);
    var r := app(Received(p), s1);
    var s2, q := After(s1, r.calls), Question(Received(p), s1);
    Touch(s, p, s1.pcbs[p]);
    AfterValid(s1, r.calls);
    LaterLater(s, s1, s2);
    OneAsked(app, q);
    if p in s2.pcbs && r.answer != Aborted {
      assert Kept(s1, s2, p);
      if r.answer == Ok {
        EndOfferedIs(app, s2, p, q);
        var s3 := EndOffered(app, s2, p, [q]).stack;
        LaterLater(s, s2, s3);
        assert p in s3.pcbs ==> Kept(s2, s3, p);
      } else {
        LaterSame(s);
        RestoreLater(s, s, s2, p, s.pcbs[p].refused);
        SimilarValid(s2, p, s2.pcbs[p].(refused := s.pcbs[p].refused));
      }
    }
  }

  /** A deallocated block is used exactly if a callback was careless, whichever piece it was for. */
  lemma {:induction false} DanglingIffCareless(app: Application, s: Stack, p: Ptr)
    requires Valid(s) && p in s.pcbs
    ensures var o := AllOffered(app, s, p);
            o.dangling <==> SomeCareless(app, o.asked)
    decreases s.pcbs[p].refused
  {
    if 0 < s.pcbs[p].refused {
      var o := PieceOffered(app, s, p);
      PieceOfferedIs(app, s, p);
      if !o.dangling && o.err == Ok {
        DanglingIffCareless(app, o.stack, p);
        CarelessBoth(app, o.asked, AllOffered(app, o.stack, p).asked);
      }
    }
  }

  /** The counts and lists stay right; ERR_OK tells that nothing is left. */
  lemma {:induction false} AllOfferedIs(app: Application, s: Stack, p: Ptr)
    requires Valid(s) && p in s.pcbs
    ensures var o := AllOffered(app, s, p);
            && Valid(o.stack) && Later(s, o.stack)
            && (!o.dangling && p !in o.stack.pcbs ==> o.err == Aborted)
            && (!o.dangling && o.err == Ok ==> p in o.stack.pcbs && o.stack.pcbs[p].refused == 0)
    decreases s.pcbs[p].refused
  {
    LaterSame(s);
    if 0 < s.pcbs[p].refused {
      var o := PieceOffered(app, s, p);
      PieceOfferedIs(app, s, p);
      if !o.dangling && o.err == Ok {
        AllOfferedIs(app, o.stack, p);
        LaterLater(s, o.stack, AllOffered(app, o.stack, p).stack);
      }
    }
  }

  /** What is left when callback `q` has done its calls. */
  function Left(app: Application, q: Question): Stack {
    After(q.stack, app(q.event, q.stack).calls)
  }

  /** `q` is asked when the calls of the callback before have left stack `s`: about the next piece, which
      is taken from the block first, or about the end of the stream. */
  ghost predicate AskedAt(s: Stack, p: Ptr, q: Question) {
    || (q.event == AtEnd(p) && q.stack == s)
    || (q.event == Received(p) && p in s.pcbs && 0 < s.pcbs[p].refused && q.stack == PieceTaken(s, p))
  }

  /** The callbacks in `asked` were made one after the other, from stack `s` on. */
  ghost predicate AskedFrom(app: Application, s: Stack, p: Ptr, asked: seq<Question>)
    decreases |asked|
  {
    asked == [] || (AskedAt(s, p, asked[0]) && AskedFrom(app, Left(app, asked[0]), p, asked[1..]))
  }

  /** What the last of them left, or `s` if there was none. */
  ghost function LeftAtLast(app: Application, s: Stack, asked: seq<Question>): Stack {
    if asked == [] then s else Left(app, asked[|asked| - 1])
  }

  lemma {:induction false} AskedBoth(app: Application, s: Stack, p: Ptr, a: seq<Question>, b: seq<Question>)
    requires AskedFrom(app, s, p, a) && AskedFrom(app, LeftAtLast(app, s, a), p, b)
    ensures AskedFrom(app, s, p, a + b) && LeftAtLast(app, s, a + b) == LeftAtLast(app, LeftAtLast(app, s, a), b)
    decreases |a|
  {
    if a == [] {
      assert a + b == b;
    } else {
      assert (a + b)[1..] == a[1..] + b && (a + b)[0] == a[0];
      assert LeftAtLast(app, Left(app, a[0]), a[1..]) == LeftAtLast(app, s, a);
      AskedBoth(app, Left(app, a[0]), p, a[1..], b);
    }
  }

  lemma {:induction false} PieceAsked(app: Application, s: Stack, p: Ptr)
    requires p in s.pcbs && 0 < s.pcbs[p].refused
    ensures var o := PieceOffered(app, s, p);
            && AskedFrom(app, s, p, o.asked)
            && (o.err != InProgress || o.dangling ==> o.stack == LeftAtLast(app, s, o.asked))
            && (o.err == InProgress && !o.dangling ==> OnlyRefused(LeftAtLast(app, s, o.asked), o.stack, p))
  {
    var q := Question(Received(p), PieceTaken(s, p));
    assert [q][1..] == [];
    var e := Question(AtEnd(p), Left(app, q));
    assert [q, e][1..] == [e] && [e][1..] == [] && [q] + [e] == [q, e];
  }

  /** Nothing but the number of refused pieces differs. */
  ghost predicate OnlyRefused(s: Stack, s': Stack, p: Ptr) {
    p in s.pcbs && p in s'.pcbs && s' == s.Set(p, s.pcbs[p].(refused := s'.pcbs[p].refused))
  }

  /** Each callback finds what the calls of the one before it have left, and in the end the stack is what
      the last one has left, but for a piece that is put back. */
  lemma {:induction false} CallsCarriedOut(app: Application, s: Stack, p: Ptr)
    requires Valid(s) && p in s.pcbs
    ensures var o := AllOffered(app, s, p);
            && AskedFrom(app, s, p, o.asked)
            && (o.err != InProgress || o.dangling ==> o.stack == LeftAtLast(app, s, o.asked))
            && (o.err == InProgress && !o.dangling ==> OnlyRefused(LeftAtLast(app, s, o.asked), o.stack, p))
    decreases s.pcbs[p].refused
  {
    if 0 < s.pcbs[p].refused {
      PieceOfferedIs(app, s, p);
      PieceAsked(app, s, p);
      var o := PieceOffered(app, s, p);
      if !o.dangling && o.err == Ok {
        CallsCarriedOut(app, o.stack, p);
        AskedBoth(app, s, p, o.asked, AllOffered(app, o.stack, p).asked);
      }
    }
  }

  /** A piece that is refused again is put back: the block holds one piece more than when the application
      was asked for the last time. */
  lemma {:induction false} RefusedPutBack(app: Application, s: Stack, p: Ptr)
    requires Valid(s) && p in s.pcbs && !AllOffered(app, s, p).dangling && AllOffered(app, s, p).err == InProgress
    ensures var o := AllOffered(app, s, p);
            && o.asked != [] && p in o.stack.pcbs
            && var q := o.asked[|o.asked| - 1];
               q.event == Received(p) && p in q.stack.pcbs && o.stack.pcbs[p].refused == q.stack.pcbs[p].refused + 1
    decreases s.pcbs[p].refused
  {
    if 0 < s.pcbs[p].refused {
      PieceOfferedIs(app, s, p);
      var o := PieceOffered(app, s, p);
      if !o.dangling && o.err == Ok { RefusedPutBack(app, o.stack, p); }
    }
  }

  lemma {:induction false} MoreAsked(a: seq<Question>, b: seq<Question>, c: seq<Question>)
    ensures a + (b + c) == a + b + c
  {
  }

  /** The run of tcp_process_refused_data that ends with `end` has come to stack `s`. */
  ghost predicate Offering(app: Application, end: Offered, asked0: seq<Question>, s: Stack, asked: seq<Question>, p: Ptr) {
    && Valid(s) && p in s.pcbs
    && var o := AllOffered(app, s, p);
       end.stack == o.stack && end.dangling == o.dangling && end.err == o.err && asked0 + end.asked == asked + o.asked
  }

  lemma {:induction false} OfferingGoesOn(app: Application, end: Offered, asked0: seq<Question>, s: Stack, asked: seq<Question>, p: Ptr)
    requires Offering(app, end, asked0, s, asked, p) && 0 < s.pcbs[p].refused
    ensures var o := PieceOffered(app, s, p);
            if o.dangling || o.err != Ok then end.stack == o.stack && end.dangling == o.dangling && end.err == o.err && asked0 + end.asked == asked + o.asked
            else Offering(app, end, asked0, o.stack, asked + o.asked, p) && o.stack.pcbs[p].refused < s.pcbs[p].refused
  {
    PieceOfferedIs(app, s, p);
    var o := PieceOffered(app, s, p);
    if !o.dangling && o.err == Ok { MoreAsked(asked, o.asked, AllOffered(app, o.stack, p).asked); }
  }

  /** An application that takes every piece and leaves the connection alone hears of all of them
      and, behind the last, of the end of the stream. */
  lemma {:induction false} NothingHeldBack(app: Application, s: Stack, p: Ptr)
    requires Valid(s) && p in s.pcbs && Quiet(app) && forall e, t :: app(e, t).answer == Ok
    ensures var o, n := AllOffered(app, s, p), s.pcbs[p].refused;
            && !o.dangling && o.err == Ok && o.stack == s.Set(p, s.pcbs[p].(refused := 0))
            && |o.asked| == n + (if 0 < n && s.pcbs[p].conn.refusedFin then 1 else 0)
            && forall i :: 0 <= i < |o.asked| ==> o.asked[i].event == if i < n then Received(p) else AtEnd(p)
    decreases s.pcbs[p].refused
  {
    assert s.pcbs[p := s.pcbs[p]] == s.pcbs;
    if 0 < s.pcbs[p].refused {
      var o := PieceOffered(app, s, p);
      PieceOfferedIs(app, s, p);
      assert o.stack == PieceTaken(s, p);
      NothingHeldBack(app, o.stack, p);
      SetTwice(s, p, o.stack.pcbs[p], s.pcbs[p].(refused := 0));
    }
  }

  // ---- one block -------------------------------------------------------------------------------

  /** What became of the stack, the callbacks asked, and whether a deallocated block was used. */
  datatype Outcome = Outcome(stack: Stack, asked: seq<Question>, dangling: bool)

  /** tcp_fasttmr, one active block: delayed ACK, pending FIN, refused data. */
  ghost function FastStep(app: Application, sent: (Ptr, Stack) -> Err, s: Stack, p: Ptr): Outcome
    requires Valid(s) && p in s.pcbs
  {
    var s1 := s.Set(p, FastStamped(s, p));
    FastStampedIs(s, p);
    FinSentValid(s1, p, sent(p, s1));
    var s2 := if s.pcbs[p].conn.closePend then FinSent(s1, p, sent(p, s1)) else s1;
    if s2.pcbs[p].refused == 0 then Outcome(s2, [], false) else
      GlobalsValid(s2, false, s2.timerCtr, s2.ticks);
      var o := AllOffered(app, s2.(changed := false), p);
      Outcome(o.stack, o.asked, o.dangling)
  }

  function FastStamped(s: Stack, p: Ptr): Pcb
    requires p in s.pcbs
  {
    s.pcbs[p].(lastTimer := s.timerCtr, conn := s.pcbs[p].conn.(ackDelay := false, closePend := false))
  }

  /** tcp_slowtmr, one active block: it expires, or its connection may be polled. */
  function SlowStep(app: Application, sender: (Ptr, Stack) -> Sender, s: Stack, p: Ptr): Outcome
    requires p in s.pcbs
  {
    var b := s.pcbs[p];
    if Expired(b, s.ticks) then
      var s1 := Gone(s, p).(changed := false);
      Outcome(After(s1, app(Failed(p), s1).calls), [Question(Failed(p), s1)], false)
    else AfterPoll(app, sender, s.Set(p, b.(lastTimer := s.timerCtr, conn := b.conn.(sender := sender(p, s)))), p)
  }

  /** The application is polled now and then. */
  function AfterPoll(app: Application, sender: (Ptr, Stack) -> Sender, s: Stack, p: Ptr): Outcome
    requires p in s.pcbs
  {
    var b, tmr := s.pcbs[p], More(s.pcbs[p].conn.pollTmr);
    if tmr < b.conn.pollInterval then Outcome(s.Set(p, b.(conn := b.conn.(pollTmr := tmr))), [], false)
    else AfterPollNow(app, sender, s.Set(p, b.(conn := b.conn.(pollTmr := 0))).(changed := false), p)
  }

  /** If the list did not change, the block still exists (`PolledExists`). */
  function AfterPollNow(app: Application, sender: (Ptr, Stack) -> Sender, s: Stack, p: Ptr): Outcome {
    var r := app(Polled(p), s);
    var s1 := After(s, r.calls);
    Outcome(if s1.changed || r.answer != Ok || p !in s1.pcbs then s1
            else s1.Set(p, s1.pcbs[p].(conn := s1.pcbs[p].conn.(sender := sender(p, s1)))),
            [Question(Polled(p), s)], false)
  }

  /** tcp_slowtmr uses no deallocated block, whatever the application answers. */
  lemma {:induction false} PolledExists(s: Stack, calls: seq<Call>, p: Ptr)
    requires Valid(s) && p in s.active
    ensures After(s, calls).changed || p in After(s, calls).pcbs
  {
    AfterValid(s, calls);
  }

  /** `p` was dealt with in between: it is stamped, if it still exists, and no other block is, but
      new ones. */
  ghost predicate Stepped(s: Stack, s': Stack, p: Ptr) {
    && s'.timerCtr == s.timerCtr && s'.ticks == s.ticks && s.unused <= s'.unused
    && forall q {:trigger SteppedAt(s, s', p, q)} :: q in s'.pcbs ==> SteppedAt(s, s', p, q)
  }

  ghost predicate SteppedAt(s: Stack, s': Stack, p: Ptr, q: Ptr)
    requires q in s'.pcbs
  {
    && (q == p ==> s'.pcbs[q].lastTimer == s.timerCtr)
    && (q != p && q in s.pcbs ==> s'.pcbs[q].lastTimer == s.pcbs[q].lastTimer)
    && (q !in s.pcbs ==> s.unused <= q && s'.pcbs[q].lastTimer == s.timerCtr)
  }

  lemma {:induction false} SteppedLater(s: Stack, s': Stack, s'': Stack, p: Ptr)
    requires Valid(s) && Stepped(s, s', p) && Later(s', s'') && p in s.pcbs
    ensures Stepped(s, s'', p)
  {
    forall q | q in s''.pcbs ensures SteppedAt(s, s'', p, q) {
      assert Kept(s', s'', q);
      assert q in s'.pcbs ==> SteppedAt(s, s', p, q);
      assert q in s.pcbs ==> Placed(s, q);
    }
  }

  lemma {:induction false} SteppedChanged(s: Stack, s': Stack, p: Ptr)
    requires Stepped(s, s', p)
    ensures Stepped(s, s'.(changed := false), p)
  {
    forall q | q in s'.pcbs ensures SteppedAt(s, s'.(changed := false), p, q) { assert SteppedAt(s, s', p, q); }
  }

  lemma {:induction false} FastStampedIs(s: Stack, p: Ptr)
    requires Valid(s) && p in s.pcbs
    ensures var s' := s.Set(p, FastStamped(s, p));
            Valid(s') && Stepped(s, s', p)
  {
    SimilarValid(s, p, FastStamped(s, p));
    forall q | q in s.pcbs ensures SteppedAt(s, s.Set(p, FastStamped(s, p)), p, q) {}
  }

  lemma {:induction false} FastStepIs(app: Application, sent: (Ptr, Stack) -> Err, s: Stack, p: Ptr)
    requires Valid(s) && p in s.pcbs
    ensures var o := FastStep(app, sent, s, p);
            Valid(o.stack) && Stepped(s, o.stack, p) && (o.dangling <==> SomeCareless(app, o.asked))
  {
    var s1 := s.Set(p, FastStamped(s, p));
    FastStampedIs(s, p);
    FinSentValid(s1, p, sent(p, s1));
    var s2 := if s.pcbs[p].conn.closePend then FinSent(s1, p, sent(p, s1)) else s1;
    LaterSame(s1);
    SteppedLater(s, s1, s2, p);
    if 0 < s2.pcbs[p].refused {
      var s3 := s2.(changed := false);
      GlobalsValid(s2, false, s2.timerCtr, s2.ticks);
      SteppedChanged(s, s2, p);
      DanglingIffCareless(app, s3, p);
      AllOfferedIs(app, s3, p);
      SteppedLater(s, s3, AllOffered(app, s3, p).stack, p);
    }
  }

  /** The block as the first callback finds it, or as the tick leaves it if there is none. */
  ghost function FirstSeen(o: Outcome): Stack {
    if o.asked == [] then o.stack else o.asked[0].stack
  }

  /** A pending FIN is sent by the fast timer: the connection moves on, or the FIN stays pending for lack
      of memory; after another error it is given up.  No ACK is delayed any more. */
  lemma {:induction false} FastSends(app: Application, sent: (Ptr, Stack) -> Err, s: Stack, p: Ptr)
    requires Valid(s) && p in s.pcbs
    ensures var o, b, err := FastStep(app, sent, s, p), s.pcbs[p], sent(p, s.Set(p, FastStamped(s, p)));
            var s' := FirstSeen(o);
            && p in s'.pcbs && (o.asked == [] <==> b.refused == 0)
            && s'.pcbs[p].lastTimer == s.timerCtr && !s'.pcbs[p].conn.ackDelay
            && (b.conn.closePend && err == Ok ==>
                  s'.pcbs[p].state == match b.state case SYN_RCVD => FIN_WAIT_1 case ESTABLISHED => FIN_WAIT_1 case CLOSE_WAIT => LAST_ACK case _ => b.state)
            && (!b.conn.closePend || err != Ok ==> s'.pcbs[p].state == b.state)
            && (s'.pcbs[p].conn.closePend <==> b.conn.closePend && err == OutOfMemory && b.state in {SYN_RCVD, ESTABLISHED, CLOSE_WAIT})
  {
    var s1 := s.Set(p, FastStamped(s, p));
    FastStampedIs(s, p);
    FinSentBlock(s1, p, sent(p, s1));
    FinSentValid(s1, p, sent(p, s1));
    var s2 := if s.pcbs[p].conn.closePend then FinSent(s1, p, sent(p, s1)) else s1;
    assert s2.pcbs[p].refused == s.pcbs[p].refused;
    if 0 < s2.pcbs[p].refused {
      GlobalsValid(s2, false, s2.timerCtr, s2.ticks);
      FirstOffered(app, s2.(changed := false), p);
    }
  }

  lemma {:induction false} FirstOffered(app: Application, s: Stack, p: Ptr)
    requires Valid(s) && p in s.pcbs && 0 < s.pcbs[p].refused
    ensures var o := AllOffered(app, s, p);
            o.asked != [] && o.asked[0] == Question(Received(p), PieceTaken(s, p))
  {
    PieceOfferedIs(app, s, p);
  }

  lemma {:induction false} AfterPollIs(app: Application, sender: (Ptr, Stack) -> Sender, s0: Stack, s: Stack, p: Ptr)
    requires Valid(s0) && Valid(s) && Stepped(s0, s, p) && p in s0.pcbs && p in s.pcbs
    ensures Valid(AfterPoll(app, sender, s, p).stack) && Stepped(s0, AfterPoll(app, sender, s, p).stack, p)
  {
    var b := s.pcbs[p];
    var b1 := b.(conn := b.conn.(pollTmr := More(b.conn.pollTmr)));
    var b2 := b.(conn := b.conn.(pollTmr := 0));
    Touch(s, p, b1);
    SteppedLater(s0, s, s.Set(p, b1), p);
    Touch(s, p, b2);
    SteppedLater(s0, s, s.Set(p, b2), p);
    SteppedChanged(s0, s.Set(p, b2), p);
    GlobalsValid(s.Set(p, b2), false, s.timerCtr, s.ticks);
    AfterPollNowIs(app, sender, s0, s.Set(p, b2).(changed := false), p);
  }

  lemma {:induction false} AfterPollNowIs(app: Application, sender: (Ptr, Stack) -> Sender, s0: Stack, s: Stack, p: Ptr)
    requires Valid(s0) && Valid(s) && Stepped(s0, s, p) && p in s0.pcbs
    ensures Valid(AfterPollNow(app, sender, s, p).stack) && Stepped(s0, AfterPollNow(app, sender, s, p).stack, p)
  {
    var r := app(Polled(p), s);
    var s1 := After(s, r.calls);
    AfterValid(s, r.calls);
    SteppedLater(s0, s, s1, p);
    if p in s1.pcbs {
      var b := s1.pcbs[p].(conn := s1.pcbs[p].conn.(sender := sender(p, s1)));
      Touch(s1, p, b);
      SteppedLater(s0, s1, s1.Set(p, b), p);
    }
  }

  lemma {:induction false} SlowStepIs(app: Application, sender: (Ptr, Stack) -> Sender, s: Stack, p: Ptr)
    requires Valid(s) && p in s.pcbs
    ensures Valid(SlowStep(app, sender, s, p).stack) && Stepped(s, SlowStep(app, sender, s, p).stack, p) && !SlowStep(app, sender, s, p).dangling
    ensures Expired(s.pcbs[p], s.ticks) ==> p !in SlowStep(app, sender, s, p).stack.pcbs
  {
    var b := s.pcbs[p];
    if Expired(b, s.ticks) {
      var s1 := Gone(s, p).(changed := false);
      assert Placed(s, p);
      GoneValid(s, p);
      GlobalsValid(Gone(s, p), false, s.timerCtr, s.ticks);
      forall q | q in s1.pcbs ensures SteppedAt(s, s1, p, q) {}
      var calls := app(Failed(p), s1).calls;
      AfterValid(s1, calls);
      SteppedLater(s, s1, After(s1, calls), p);
      assert p in After(s1, calls).pcbs ==> Kept(s1, After(s1, calls), p);
    } else {
      var b1 := b.(lastTimer := s.timerCtr, conn := b.conn.(sender := sender(p, s)));
      SimilarValid(s, p, b1);
      forall q | q in s.pcbs ensures SteppedAt(s, s.Set(p, b1), p, q) {}
      AfterPollIs(app, sender, s, s.Set(p, b1), p);
    }
  }

  // ---- a whole tick -----------------------------------------------------------------------------

  /** What a timer does with one block. */
  type Deal = (Stack, Ptr) -> Outcome

  ghost function SlowDeal(app: Application, sender: (Ptr, Stack) -> Sender): Deal {
    (s: Stack, p: Ptr) => if p in s.pcbs then SlowStep(app, sender, s, p) else Outcome(s, [], false)
  }

  ghost function FastDeal(app: Application, sent: (Ptr, Stack) -> Err): Deal {
    (s: Stack, p: Ptr) => if Valid(s) && p in s.pcbs then FastStep(app, sent, s, p) else Outcome(s, [], false)
  }

  ghost predicate Deals(deal: Deal) {
    forall s, p {:trigger deal(s, p)} :: Valid(s) && p in s.pcbs ==> Valid(deal(s, p).stack) && Stepped(s, deal(s, p).stack, p)
  }

  lemma {:induction false} SlowDeals(app: Application, sender: (Ptr, Stack) -> Sender)
    ensures Deals(SlowDeal(app, sender))
  {
    forall s, p | Valid(s) && p in s.pcbs
      ensures Valid(SlowDeal(app, sender)(s, p).stack) && Stepped(s, SlowDeal(app, sender)(s, p).stack, p)
    {
      SlowStepIs(app, sender, s, p);
    }
  }

  lemma {:induction false} FastDeals(app: Application, sent: (Ptr, Stack) -> Err)
    ensures Deals(FastDeal(app, sent))
  {
    forall s, p | Valid(s) && p in s.pcbs
      ensures Valid(FastDeal(app, sent)(s, p).stack) && Stepped(s, FastDeal(app, sent)(s, p).stack, p)
    {
      FastStepIs(app, sent, s, p);
    }
  }

  /** The first block on the list that this tick has not dealt with, or NULL. */
  function FirstStale(s: Stack, l: seq<Ptr>): Ptr
    requires forall p :: p in l ==> p in s.pcbs
  {
    if l == [] then NULL else if s.pcbs[l[0]].lastTimer != s.timerCtr then l[0] else FirstStale(s, l[1..])
  }

  lemma {:induction false} FirstStaleIs(s: Stack, l: seq<Ptr>, k: nat)
    requires (forall p :: p in l ==> p in s.pcbs) && NULL !in l && k <= |l|
    requires forall j :: 0 <= j < k ==> s.pcbs[l[j]].lastTimer == s.timerCtr
    requires k < |l| ==> s.pcbs[l[k]].lastTimer != s.timerCtr
    ensures FirstStale(s, l) == if k < |l| then l[k] else NULL
    decreases k
  {
    if 0 < k {
      forall j | 0 <= j < k - 1 ensures s.pcbs[l[1..][j]].lastTimer == s.timerCtr { assert l[1..][j] == l[j + 1]; }
      FirstStaleIs(s, l[1..], k - 1);
    }
  }

  lemma {:induction false} FirstStaleHas(s: Stack, l: seq<Ptr>)
    requires (forall p :: p in l ==> p in s.pcbs) && NULL !in l
    ensures var p := FirstStale(s, l);
            if p == NULL then forall q :: q in l ==> s.pcbs[q].lastTimer == s.timerCtr
            else p in l && s.pcbs[p].lastTimer != s.timerCtr
    decreases |l|
  {
    if l != [] { FirstStaleHas(s, l[1..]); }
  }

  /** A block was dealt with, in this state. */
  datatype Visit = Visit(p: Ptr, at: Stack)

  datatype Tick = Tick(stack: Stack, visits: seq<Visit>, asked: seq<Question>, dangling: bool)

  /** A tick: as long as there is an active block not dealt with, the first one is dealt with. */
  ghost function TickFrom(deal: Deal, s: Stack): Tick
    requires Valid(s) && Deals(deal)
    decreases |Stale(s)|
  {
    var p := FirstStale(s, s.active);
    if p == NULL then Tick(s, [], [], false) else
      var o := deal(s, p);
      FewerStale(deal, s);
      if o.dangling then Tick(o.stack, [Visit(p, s)], o.asked, true) else
        var t := TickFrom(deal, o.stack);
        Tick(t.stack, [Visit(p, s)] + t.visits, o.asked + t.asked, t.dangling)
  }

  lemma {:induction false} FewerStale(deal: Deal, s: Stack)
    requires Valid(s) && Deals(deal) && FirstStale(s, s.active) != NULL
    ensures var p := FirstStale(s, s.active);
            && p in s.active && p in s.pcbs && s.pcbs[p].lastTimer != s.timerCtr
            && Valid(deal(s, p).stack) && Stepped(s, deal(s, p).stack, p)
            && |Stale(deal(s, p).stack)| < |Stale(s)|
  {
    NoNull(s);
    FirstStaleHas(s, s.active);
    var p := FirstStale(s, s.active);
    var s' := deal(s, p).stack;
    forall q | q in Stale(s') ensures q in Stale(s) && q != p { assert SteppedAt(s, s', p, q); }
    assert p in Stale(s);
    Fewer(Stale(s'), Stale(s));
  }

  /** Nothing that was deallocated comes back. */
  ghost predicate Since(s: Stack, s': Stack) {
    && s'.timerCtr == s.timerCtr && s'.ticks == s.ticks && s.unused <= s'.unused
    && forall p :: p in s'.pcbs ==> p in s.pcbs || s.unused <= p
  }

  lemma {:induction false} TickSince(deal: Deal, s: Stack)
    requires Valid(s) && Deals(deal)
    ensures Valid(TickFrom(deal, s).stack) && Since(s, TickFrom(deal, s).stack)
    decreases |Stale(s)|
  {
    var p := FirstStale(s, s.active);
    if p != NULL {
      FewerStale(deal, s);
      var o := deal(s, p);
      forall q | q in o.stack.pcbs ensures q in s.pcbs || s.unused <= q { assert SteppedAt(s, o.stack, p, q); }
      if !o.dangling { TickSince(deal, o.stack); }
    }
  }

  ghost predicate WasStale(s: Stack, p: Ptr) {
    p in s.pcbs && s.pcbs[p].lastTimer != s.timerCtr
  }

  /** The block was stale before the tick, and active when its turn came. */
  ghost predicate InTurn(s: Stack, v: Visit) {
    WasStale(s, v.p) && v.p in v.at.active
  }

  /** No block is dealt with twice in a tick, nor one that was stamped before or is new. */
  lemma {:induction false} EachOnce(deal: Deal, s: Stack)
    requires Valid(s) && Deals(deal)
    ensures forall v :: v in TickFrom(deal, s).visits ==> InTurn(s, v)
    ensures forall i, j :: 0 <= i < j < |TickFrom(deal, s).visits| ==> TickFrom(deal, s).visits[i].p != TickFrom(deal, s).visits[j].p
    decreases |Stale(s)|
  {
    var p := FirstStale(s, s.active);
    if p != NULL {
      FewerStale(deal, s);
      var o := deal(s, p);
      if !o.dangling {
        EachOnce(deal, o.stack);
        var vs, us := TickFrom(deal, o.stack).visits, TickFrom(deal, s).visits;
        assert us == [Visit(p, s)] + vs;
        forall v | v in vs ensures InTurn(s, v) && v.p != p {
          assert InTurn(o.stack, v);
          assert SteppedAt(s, o.stack, p, v.p);
        }
        forall i, j | 0 <= i < j < |us| ensures us[i].p != us[j].p {
          assert us[j] == vs[j - 1] && vs[j - 1] in vs;
          if 0 < i { assert us[i] == vs[i - 1]; }
        }
      }
    }
  }

  ghost predicate Visited(vs: seq<Visit>, p: Ptr) {
    exists i :: 0 <= i < |vs| && vs[i].p == p
  }

  lemma {:induction false} VisitedRest(v: Visit, vs: seq<Visit>, p: Ptr)
    requires v.p == p || Visited(vs, p)
    ensures Visited([v] + vs, p)
  {
    if v.p == p {
      assert ([v] + vs)[0].p == p;
    } else {
      var i :| 0 <= i < |vs| && vs[i].p == p;
      assert ([v] + vs)[i + 1].p == p;
    }
  }

  /** At the end every active block is stamped, and no stale one was left out. */
  lemma {:induction false} NoneLeftOut(deal: Deal, s: Stack)
    requires Valid(s) && Deals(deal) && !TickFrom(deal, s).dangling
    ensures var t := TickFrom(deal, s);
            && (forall p :: p in t.stack.active ==> p in t.stack.pcbs && t.stack.pcbs[p].lastTimer == s.timerCtr)
            && (forall p :: p in t.stack.active && WasStale(s, p) ==> Visited(t.visits, p))
    decreases |Stale(s)|
  {
    var p0 := FirstStale(s, s.active);
    if p0 == NULL {
      NoNull(s);
      FirstStaleHas(s, s.active);
    } else {
      FewerStale(deal, s);
      var o := deal(s, p0);
      NoneLeftOut(deal, o.stack);
      TickSince(deal, o.stack);
      var t := TickFrom(deal, o.stack);
      forall p | p in t.stack.active && WasStale(s, p) ensures Visited([Visit(p0, s)] + t.visits, p) {
        if p != p0 {
          assert Placed(s, p);
          assert p in o.stack.pcbs && SteppedAt(s, o.stack, p0, p);
        }
        VisitedRest(Visit(p0, s), t.visits, p);
      }
    }
  }

  // ---- the walk keeps to this order -------------------------------------------------------------

  /** If the walk stands at a stale block, all before it are stamped, so that its turn has come. */
  lemma {:induction false} TurnOf(deal: Deal, s: Stack, k: nat, prev: Ptr, p: Ptr)
    requires Valid(s) && Deals(deal) && Dealt(s, k) && WalkAt(s.active, k, prev, p)
    requires k < |s.active| && p in s.pcbs && s.pcbs[p].lastTimer != s.timerCtr
    ensures var o, t := deal(s, p), TickFrom(deal, s);
            && Valid(o.stack) && |Stale(o.stack)| < |Stale(s)|
            && (if o.dangling then t.stack == o.stack && t.dangling
                else t.stack == TickFrom(deal, o.stack).stack && t.dangling == TickFrom(deal, o.stack).dangling)
            && t.asked == if o.dangling then o.asked else o.asked + TickFrom(deal, o.stack).asked
  {
    NoNull(s);
    StepIs(s.active, k, prev, p);
    FirstStaleIs(s, s.active, k);
    FewerStale(deal, s);
  }

  lemma {:induction false} TurnsOver(deal: Deal, s: Stack, k: nat)
    requires Valid(s) && Deals(deal) && Dealt(s, k) && k == |s.active|
    ensures TickFrom(deal, s) == Tick(s, [], [], false)
  {
    NoNull(s);
    FirstStaleIs(s, s.active, k);
  }

  // ---- tcp_fasttmr ----------------------------------------------------------------------------

  /** The rest of tcp_fasttmr, from some block on. */
  ghost function FastFrom(app: Application, sent: (Ptr, Stack) -> Err, s: Stack): Tick
    requires Valid(s)
  {
    FastDeals(app, sent);
    TickFrom(FastDeal(app, sent), s)
  }

  lemma {:induction false} FastTurn(app: Application, sent: (Ptr, Stack) -> Err, s: Stack, k: nat, prev: Ptr, p: Ptr)
    requires Valid(s) && Dealt(s, k) && WalkAt(s.active, k, prev, p) && k < |s.active| && p in s.pcbs && s.pcbs[p].lastTimer != s.timerCtr
    ensures var o, t := FastStep(app, sent, s, p), FastFrom(app, sent, s);
            && Valid(o.stack) && |Stale(o.stack)| < |Stale(s)|
            && (if o.dangling then t.stack == o.stack && t.dangling
                else t.stack == FastFrom(app, sent, o.stack).stack && t.dangling == FastFrom(app, sent, o.stack).dangling)
            && t.asked == if o.dangling then o.asked else o.asked + FastFrom(app, sent, o.stack).asked
  {
    FastDeals(app, sent);
    TurnOf(FastDeal(app, sent), s, k, prev, p);
  }

  /** The tick that ends with `end` has come to stack `s`, and `asked` are the callbacks made so far. */
  ghost predicate FastGoing(app: Application, sent: (Ptr, Stack) -> Err, end: Tick, asked0: seq<Question>, s: Stack, asked: seq<Question>) {
    && Valid(s) && end.stack == FastFrom(app, sent, s).stack && end.dangling == FastFrom(app, sent, s).dangling
    && asked0 + end.asked == asked + FastFrom(app, sent, s).asked
  }

  lemma {:induction false} FastGoesOn(app: Application, sent: (Ptr, Stack) -> Err, end: Tick, asked0: seq<Question>, s: Stack, asked: seq<Question>,
                                      k: nat, prev: Ptr, p: Ptr)
    requires FastGoing(app, sent, end, asked0, s, asked)
    requires Dealt(s, k) && WalkAt(s.active, k, prev, p) && k < |s.active| && p in s.pcbs && s.pcbs[p].lastTimer != s.timerCtr
    ensures var o := FastStep(app, sent, s, p);
            && Valid(o.stack) && |Stale(o.stack)| < |Stale(s)|
            && if o.dangling then end.stack == o.stack && end.dangling && asked0 + end.asked == asked + o.asked
               else FastGoing(app, sent, end, asked0, o.stack, asked + o.asked)
  {
    FastTurn(app, sent, s, k, prev, p);
    var o := FastStep(app, sent, s, p);
    if !o.dangling { MoreAsked(asked, o.asked, FastFrom(app, sent, o.stack).asked); }
  }

  lemma {:induction false} FastOver(app: Application, sent: (Ptr, Stack) -> Err, end: Tick, asked0: seq<Question>, s: Stack, asked: seq<Question>, k: nat)
    requires FastGoing(app, sent, end, asked0, s, asked) && Dealt(s, k) && k == |s.active|
    ensures end.stack == s && !end.dangling && asked == asked0 + end.asked
  {
    FastDeals(app, sent);
    TurnsOver(FastDeal(app, sent), s, k);
    assert asked + [] == asked;
  }

  /** tcp_fasttmr */
  ghost function FastRun(app: Application, sent: (Ptr, Stack) -> Err, s: Stack): Tick
    requires Valid(s)
  {
    GlobalsValid(s, s.changed, NextStamp(s), s.ticks);
    FastFrom(app, sent, s.(timerCtr := NextStamp(s)))
  }

  lemma {:induction false} FastDangles(app: Application, sent: (Ptr, Stack) -> Err, s: Stack)
    requires Valid(s) && Deals(FastDeal(app, sent))
    ensures var t := TickFrom(FastDeal(app, sent), s);
            t.dangling <==> SomeCareless(app, t.asked)
    decreases |Stale(s)|
  {
    var deal, p := FastDeal(app, sent), FirstStale(s, s.active);
    if p != NULL {
      FewerStale(deal, s);
      FastStepIs(app, sent, s, p);
      var o := deal(s, p);
      if !o.dangling {
        FastDangles(app, sent, o.stack);
        CarelessBoth(app, o.asked, TickFrom(deal, o.stack).asked);
      }
    }
  }

  /** tcp_fasttmr deals with no block twice, uses a deallocated block exactly if a callback was
      careless, and otherwise leaves no stale active block out, whatever callbacks do. */
  lemma {:induction false} FastTick(app: Application, sent: (Ptr, Stack) -> Err, s: Stack)
    requires Valid(s)
    ensures var t := FastRun(app, sent, s);
            && Valid(t.stack) && AllInTurn(s, NextStamp(s), t)
            && (t.dangling <==> SomeCareless(app, t.asked))
            && (!t.dangling ==> NoneStale(s, NextStamp(s), t.stack, t.visits))
  {
    var deal, s1 := FastDeal(app, sent), s.(timerCtr := NextStamp(s));
    FastDeals(app, sent);
    GlobalsValid(s, s.changed, NextStamp(s), s.ticks);
    TickSince(deal, s1);
    EachOnce(deal, s1);
    FastDangles(app, sent, s1);
    if !TickFrom(deal, s1).dangling { NoneLeftOut(deal, s1); }
  }

  /** The blocks dealt with are different, had not got the stamp before, and were active. */
  ghost predicate AllInTurn(s: Stack, stamp: byte, t: Tick) {
    && (forall v :: v in t.visits ==> v.p in s.pcbs && s.pcbs[v.p].lastTimer != stamp && v.p in v.at.active)
    && (forall i, j :: 0 <= i < j < |t.visits| ==> t.visits[i].p != t.visits[j].p)
  }

  /** All active blocks have the stamp now, and those that had not were dealt with. */
  ghost predicate NoneStale(s: Stack, stamp: byte, s': Stack, vs: seq<Visit>) {
    && (forall p :: p in s'.active ==> p in s'.pcbs && s'.pcbs[p].lastTimer == stamp)
    && (forall p :: p in s'.active && p in s.pcbs && s.pcbs[p].lastTimer != stamp ==> Visited(vs, p))
  }

  // ---- tcp_slowtmr -----------------------------------------------------------------------------

  /** The rest of the walk of tcp_slowtmr, from some block on. */
  ghost function SlowFrom(app: Application, sender: (Ptr, Stack) -> Sender, s: Stack): Tick
    requires Valid(s)
  {
    SlowDeals(app, sender);
    TickFrom(SlowDeal(app, sender), s)
  }

  lemma {:induction false} SlowTurn(app: Application, sender: (Ptr, Stack) -> Sender, s: Stack, k: nat, prev: Ptr, p: Ptr)
    requires Valid(s) && Dealt(s, k) && WalkAt(s.active, k, prev, p) && k < |s.active| && p in s.pcbs && s.pcbs[p].lastTimer != s.timerCtr
    ensures var o := SlowStep(app, sender, s, p);
            && Valid(o.stack) && |Stale(o.stack)| < |Stale(s)|
            && SlowFrom(app, sender, s).stack == SlowFrom(app, sender, o.stack).stack
            && SlowFrom(app, sender, s).asked == o.asked + SlowFrom(app, sender, o.stack).asked
  {
    SlowDeals(app, sender);
    SlowStepIs(app, sender, s, p);
    TurnOf(SlowDeal(app, sender), s, k, prev, p);
  }

  /** The tick that ends with `end` has come to stack `s`, and `asked` are the callbacks made so far. */
  ghost predicate SlowGoing(app: Application, sender: (Ptr, Stack) -> Sender, end: Tick, asked0: seq<Question>, s: Stack, asked: seq<Question>) {
    Valid(s) && end.stack == SlowFrom(app, sender, s).stack && asked0 + end.asked == asked + SlowFrom(app, sender, s).asked
  }

  lemma {:induction false} SlowGoesOn(app: Application, sender: (Ptr, Stack) -> Sender, end: Tick, asked0: seq<Question>, s: Stack, asked: seq<Question>,
                                      k: nat, prev: Ptr, p: Ptr)
    requires SlowGoing(app, sender, end, asked0, s, asked)
    requires Dealt(s, k) && WalkAt(s.active, k, prev, p) && k < |s.active| && p in s.pcbs && s.pcbs[p].lastTimer != s.timerCtr
    ensures var o := SlowStep(app, sender, s, p);
            && Valid(o.stack) && |Stale(o.stack)| < |Stale(s)| && SlowGoing(app, sender, end, asked0, o.stack, asked + o.asked)
  {
    SlowTurn(app, sender, s, k, prev, p);
    var o := SlowStep(app, sender, s, p);
    MoreAsked(asked, o.asked, SlowFrom(app, sender, o.stack).asked);
  }

  lemma {:induction false} SlowOver(app: Application, sender: (Ptr, Stack) -> Sender, end: Tick, asked0: seq<Question>, s: Stack, asked: seq<Question>, k: nat)
    requires SlowGoing(app, sender, end, asked0, s, asked) && Dealt(s, k) && k == |s.active|
    ensures end.stack == s && asked == asked0 + end.asked
  {
    SlowDeals(app, sender);
    TurnsOver(SlowDeal(app, sender), s, k);
    assert asked + [] == asked;
  }

  /** tcp_slowtmr, its walk over the active blocks */
  ghost function SlowRun(app: Application, sender: (Ptr, Stack) -> Sender, s: Stack): Tick
    requires Valid(s)
  {
    GlobalsValid(s, s.changed, NextStamp(s), NextTick(s));
    SlowFrom(app, sender, s.(timerCtr := NextStamp(s), ticks := NextTick(s)))
  }

  /** tcp_slowtmr, and the one over those in TIME_WAIT */
  ghost function SlowEnd(app: Application, sender: (Ptr, Stack) -> Sender, s: Stack): Stack
    requires Valid(s)
  {
    SlowDeals(app, sender);
    GlobalsValid(s, s.changed, NextStamp(s), NextTick(s));
    TickSince(SlowDeal(app, sender), s.(timerCtr := NextStamp(s), ticks := NextTick(s)));
    TimeWaited(SlowRun(app, sender, s).stack)
  }

  lemma {:induction false} SlowEndValid(app: Application, sender: (Ptr, Stack) -> Sender, s: Stack)
    requires Valid(s)
    ensures Valid(SlowEnd(app, sender, s))
  {
    SlowDeals(app, sender);
    GlobalsValid(s, s.changed, NextStamp(s), NextTick(s));
    TickSince(SlowDeal(app, sender), s.(timerCtr := NextStamp(s), ticks := NextTick(s)));
    TimeWaitedValid(SlowRun(app, sender, s).stack);
  }

  /** tcp_slowtmr deals with no block twice and leaves no stale active block out, whatever callbacks
      do; blocks that had expired when their turn came are gone. */
  lemma {:induction false} SlowTick(app: Application, sender: (Ptr, Stack) -> Sender, s: Stack)
    requires Valid(s)
    ensures var t := SlowRun(app, sender, s);
            && Valid(t.stack) && Valid(SlowEnd(app, sender, s)) && !t.dangling && AllInTurn(s, NextStamp(s), t)
            && NoneStale(s, NextStamp(s), SlowEnd(app, sender, s), t.visits)
            && (forall v :: v in t.visits ==> v.p in v.at.pcbs && (Expired(v.at.pcbs[v.p], NextTick(s)) ==> v.p !in t.stack.pcbs))
  {
    var deal, s1 := SlowDeal(app, sender), s.(timerCtr := NextStamp(s), ticks := NextTick(s));
    SlowDeals(app, sender);
    GlobalsValid(s, s.changed, NextStamp(s), NextTick(s));
    TickSince(deal, s1);
    EachOnce(deal, s1);
    SlowNeverDangles(app, sender, s1);
    SlowEndValid(app, sender, s);
    NoneLeftOut(deal, s1);
    forall v | v in SlowRun(app, sender, s).visits
      ensures v.p in v.at.pcbs && (Expired(v.at.pcbs[v.p], NextTick(s)) ==> v.p !in SlowRun(app, sender, s).stack.pcbs)
    {
      ExpiredGone(app, sender, s1, v);
    }
    var t := SlowRun(app, sender, s).stack;
    forall p | p in t.active ensures p in TimeWaited(t).pcbs { assert Placed(t, p); }
  }

  /** With quiet callbacks tcp_slowtmr decides about the blocks as they were before: exactly the
      stale active ones that have expired and those in TIME_WAIT for long enough are gone. */
  lemma {:induction false} QuietSlowTick(app: Application, sender: (Ptr, Stack) -> Sender, s: Stack)
    requires Valid(s) && Quiet(app)
    ensures forall p :: p in SlowEnd(app, sender, s).pcbs <==>
              && p in s.pcbs
              && !(p in s.active && s.pcbs[p].lastTimer != NextStamp(s) && Expired(s.pcbs[p], NextTick(s)))
              && !(p in s.tw && WaitedEnough(s.pcbs[p], NextTick(s)))
  {
    var s1 := s.(timerCtr := NextStamp(s), ticks := NextTick(s));
    SlowDeals(app, sender);
    GlobalsValid(s, s.changed, NextStamp(s), NextTick(s));
    TickSince(SlowDeal(app, sender), s1);
    QuietTick(app, sender, s1);
    var t := SlowRun(app, sender, s).stack;
    forall p | p in s.pcbs && p in s.tw ensures p !in s.active && p in t.pcbs { assert Placed(s, p); }
  }

  lemma {:induction false} SlowNeverDangles(app: Application, sender: (Ptr, Stack) -> Sender, s: Stack)
    requires Valid(s) && Deals(SlowDeal(app, sender))
    ensures !TickFrom(SlowDeal(app, sender), s).dangling
    decreases |Stale(s)|
  {
    if FirstStale(s, s.active) != NULL {
      FewerStale(SlowDeal(app, sender), s);
      SlowStepIs(app, sender, s, FirstStale(s, s.active));
      SlowNeverDangles(app, sender, SlowDeal(app, sender)(s, FirstStale(s, s.active)).stack);
    }
  }

  /** Whatever callbacks do, a block that had expired when its turn came is gone. */
  lemma {:induction false} ExpiredGone(app: Application, sender: (Ptr, Stack) -> Sender, s: Stack, v: Visit)
    requires Valid(s) && Deals(SlowDeal(app, sender)) && v in TickFrom(SlowDeal(app, sender), s).visits
    ensures v.p in v.at.pcbs && (Expired(v.at.pcbs[v.p], s.ticks) ==> v.p !in TickFrom(SlowDeal(app, sender), s).stack.pcbs)
    decreases |Stale(s)|
  {
    var deal, p := SlowDeal(app, sender), FirstStale(s, s.active);
    if p != NULL {
      FewerStale(deal, s);
      SlowStepIs(app, sender, s, p);
      var s' := deal(s, p).stack;
      assert TickFrom(deal, s).visits == [Visit(p, s)] + TickFrom(deal, s').visits;
      if v == Visit(p, s) {
        assert Placed(s, p);
        TickSince(deal, s');
      } else {
        ExpiredGone(app, sender, s', v);
      }
    }
  }

  /** Exactly the stale active blocks that had expired in `s` are gone, and each stale active block
      was dealt with as it was in `s`. */
  ghost predicate DecidedAt(s: Stack, t: Stack, vs: seq<Visit>) {
    && (forall p :: p in t.pcbs <==> p in s.pcbs && !(p in s.active && WasStale(s, p) && Expired(s.pcbs[p], s.ticks)))
    && (forall i :: 0 <= i < |vs| ==> SameRecord(s, vs[i]))
    && (forall p :: p in s.active && WasStale(s, p) ==> Visited(vs, p))
    && (forall p :: p in t.pcbs && (p in s.tw || p in t.tw) ==> p in s.tw && p in t.tw && p in s.pcbs && t.pcbs[p] == s.pcbs[p])
  }

  ghost predicate SameRecord(s: Stack, v: Visit) {
    v.p in v.at.pcbs && v.p in s.pcbs && v.at.pcbs[v.p] == s.pcbs[v.p]
  }

  /** What dealing with `p` does to the stack if callbacks are quiet. */
  ghost predicate QuietlyDealt(s: Stack, s': Stack, p: Ptr) {
    && (forall q :: q in s'.pcbs <==> q in s.pcbs && !(q == p && Expired(s.pcbs[p], s.ticks)))
    && (forall q :: q in s'.pcbs && q != p ==> s'.pcbs[q] == s.pcbs[q])
    && (forall q :: q in s'.pcbs ==> (q in s'.active <==> q in s.active) && (q in s'.tw <==> q in s.tw))
  }

  /** With quiet callbacks, one block being dealt with is nothing to the others. */
  lemma {:induction false} QuietStep(app: Application, sender: (Ptr, Stack) -> Sender, s: Stack, p: Ptr)
    requires Valid(s) && p in s.pcbs && Quiet(app)
    ensures QuietlyDealt(s, SlowStep(app, sender, s, p).stack, p)
  {
    WithoutIs(s.active, p);
    WithoutIs(s.tw, p);
    if !Expired(s.pcbs[p], s.ticks) {
      var b := s.pcbs[p];
      QuietPoll(app, sender, s.Set(p, b.(lastTimer := s.timerCtr, conn := b.conn.(sender := sender(p, s)))), p);
    }
  }

  lemma {:induction false} QuietPoll(app: Application, sender: (Ptr, Stack) -> Sender, s: Stack, p: Ptr)
    requires p in s.pcbs && Quiet(app)
    ensures var s' := AfterPoll(app, sender, s, p).stack;
            s'.pcbs.Keys == s.pcbs.Keys && s'.active == s.active && s'.tw == s.tw && forall q :: q in s.pcbs && q != p ==> s'.pcbs[q] == s.pcbs[q]
  {
    assert After(s, []) == s;
  }

  lemma {:induction false} DecidedNext(s: Stack, s': Stack, t: Stack, p: Ptr, vs: seq<Visit>)
    requires Valid(s) && s'.ticks == s.ticks && s'.timerCtr == s.timerCtr && p in s.active && WasStale(s, p) && QuietlyDealt(s, s', p) && DecidedAt(s', t, vs)
    requires (p in s'.pcbs ==> !WasStale(s', p)) && forall v :: v in vs ==> InTurn(s', v)
    ensures DecidedAt(s, t, [Visit(p, s)] + vs)
  {
    var us := [Visit(p, s)] + vs;
    assert Placed(s, p);
    forall q | q in s.pcbs
      ensures q in t.pcbs <==> !(q in s.active && WasStale(s, q) && Expired(s.pcbs[q], s.ticks))
    {
      DecidedBlock(s, s', t, p, vs, q);
    }
    forall i | 0 <= i < |us| ensures SameRecord(s, us[i]) {
      if 0 < i { assert SameRecord(s', vs[i - 1]) && InTurn(s', vs[i - 1]); }
    }
    forall q | q in s.active && WasStale(s, q) ensures Visited(us, q) { VisitedRest(Visit(p, s), vs, q); }
  }

  lemma {:induction false} DecidedBlock(s: Stack, s': Stack, t: Stack, p: Ptr, vs: seq<Visit>, q: Ptr)
    requires s'.ticks == s.ticks && s'.timerCtr == s.timerCtr && p in s.active && WasStale(s, p) && QuietlyDealt(s, s', p) && DecidedAt(s', t, vs)
    requires (p in s'.pcbs ==> !WasStale(s', p)) && q in s.pcbs
    ensures q in t.pcbs <==> !(q in s.active && WasStale(s, q) && Expired(s.pcbs[q], s.ticks))
  {
    if q != p { assert WasStale(s', q) <==> WasStale(s, q); }
  }

  /** With quiet callbacks tcp_slowtmr decides about the blocks as they were before the tick. */
  lemma {:induction false} QuietTick(app: Application, sender: (Ptr, Stack) -> Sender, s: Stack)
    requires Valid(s) && Deals(SlowDeal(app, sender)) && Quiet(app)
    ensures var t := TickFrom(SlowDeal(app, sender), s);
            DecidedAt(s, t.stack, t.visits)
    decreases |Stale(s)|
  {
    var deal, p := SlowDeal(app, sender), FirstStale(s, s.active);
    if p == NULL {
      NoNull(s);
      FirstStaleHas(s, s.active);
    } else {
      var s' := deal(s, p).stack;
      FewerStale(deal, s);
      QuietStep(app, sender, s, p);
      QuietTick(app, sender, s');
      EachOnce(deal, s');
      var t := TickFrom(deal, s');
      assert p in s'.pcbs ==> SteppedAt(s, s', p, p);
      DecidedNext(s, s', t.stack, p, t.visits);
    }
  }
}
