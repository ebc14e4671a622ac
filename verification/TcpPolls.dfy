/** When tcp_slowtmr polls the application. */
module TcpPolls {
  // The netconn layer waits for this callback, which wakes threads that wait for room or memory.

  import opened Bytes
  import opened Errors
  import opened Lists
  import opened TcpPcbs
  import opened TcpCalls
  import opened TcpTimers
  import opened TcpTicks

  /** How often the application was polled for block `p`. */
  function Polls(asked: seq<Question>, p: Ptr): nat {
    if asked == [] then 0 else (if asked[0].event == Polled(p) then 1 else 0) + Polls(asked[1..], p)
  }

  lemma {:induction false} PollsBoth(a: seq<Question>, b: seq<Question>, p: Ptr)
    ensures Polls(a + b, p) == Polls(a, p) + Polls(b, p)
    decreases |a|
  {
    if a == [] {
      assert a + b == b;
    } else {
      assert (a + b)[1..] == a[1..] + b;
      PollsBoth(a[1..], b, p);
    }
  }

  /** The count of ticks, one more than before in 8 bits, has reached the interval. */
  predicate Due(b: Pcb) {
    (b.conn.pollTmr + 1) % 0x100 >= b.conn.pollInterval
  }

  /** A block with the stamp of this tick, after a step of the sender, and with this count. */
  function Counted(b: Pcb, stamp: byte, sender: Sender, count: byte): Pcb {
    b.(lastTimer := stamp, conn := b.conn.(sender := sender, pollTmr := count))
  }

  /** One active block: if it has expired the application is told so, and nothing else.  Otherwise it
      is polled exactly if the count has reached the interval, with the count at 0, and tcp_output
      follows if it answers ERR_OK and the list is as it was; else the count is one more. */
  lemma {:induction false} StepPolls(app: Application, sender: (Ptr, Stack) -> Sender, s: Stack, p: Ptr)
    requires p in s.pcbs
    ensures var o, b := SlowStep(app, sender, s, p), s.pcbs[p];
            if Expired(b, s.ticks) then
              && |o.asked| == 1 && o.asked[0].event == Failed(p) && o.stack == Left(app, o.asked[0])
              && o.asked[0].stack.pcbs == s.pcbs - {p} && !o.asked[0].stack.changed
            else if !Due(b) then o.asked == [] && o.stack == s.Set(p, Counted(b, s.timerCtr, sender(p, s), (b.conn.pollTmr + 1) % 0x100))
            else
              var polled := s.Set(p, Counted(b, s.timerCtr, sender(p, s), 0)).(changed := false);
              var r := app(Polled(p), polled);
              var s1 := Left(app, Question(Polled(p), polled));
              && o.asked == [Question(Polled(p), polled)]
              && (r.answer == Ok && !s1.changed && p in s1.pcbs ==> o.stack == s1.Set(p, Counted(s1.pcbs[p], s1.pcbs[p].lastTimer, sender(p, s1), s1.pcbs[p].conn.pollTmr)))
              && (r.answer != Ok || s1.changed ==> o.stack == s1)
  {
    var b, count := s.pcbs[p], (s.pcbs[p].conn.pollTmr + 1) % 0x100;
    assert More(b.conn.pollTmr) == count;
    SetTwice(s, p, Counted(b, s.timerCtr, sender(p, s), b.conn.pollTmr), Counted(b, s.timerCtr, sender(p, s), if Due(b) then 0 else count));
  }

  // ---- a whole tick -----------------------------------------------------------------------------

  /** The block had not expired when its turn came, and its count had reached the interval. */
  ghost predicate TurnToPoll(v: Visit, p: Ptr) {
    v.p == p && p in v.at.pcbs && !Expired(v.at.pcbs[p], v.at.ticks) && Due(v.at.pcbs[p])
  }

  ghost function TurnsToPoll(vs: seq<Visit>, p: Ptr): nat {
    if vs == [] then 0 else (if TurnToPoll(vs[0], p) then 1 else 0) + TurnsToPoll(vs[1..], p)
  }

  /** Whatever callbacks do: a block is polled exactly as often as its turn came and it was due,
      which is once at most as no block is dealt with twice. */
  lemma {:induction false} TickPolls(app: Application, sender: (Ptr, Stack) -> Sender, s: Stack, p: Ptr)
    requires Valid(s) && Deals(SlowDeal(app, sender))
    ensures var t := TickFrom(SlowDeal(app, sender), s);
            Polls(t.asked, p) == TurnsToPoll(t.visits, p)
    decreases |Stale(s)|
  {
    var deal, q := SlowDeal(app, sender), FirstStale(s, s.active);
    if q != NULL {
      FewerStale(deal, s);
      SlowStepIs(app, sender, s, q);
      StepPolls(app, sender, s, q);
      var o := deal(s, q);
      TickPolls(app, sender, o.stack, p);
      var t := TickFrom(deal, o.stack);
      PollsBoth(o.asked, t.asked, p);
      assert ([Visit(q, s)] + t.visits)[1..] == t.visits;
      assert |o.asked| == 1 ==> o.asked[1..] == [];
    }
  }

  /** What a tick makes of a block that is active before and has not expired, if callbacks are
      quiet: its count is one more, or 0 if it was polled. */
  ghost predicate PollCounted(b: Pcb, b': Pcb) {
    b'.conn.pollTmr == (if Due(b) then 0 else (b.conn.pollTmr + 1) % 0x100) && b'.conn.pollInterval == b.conn.pollInterval
  }

  lemma {:induction false} QuietStepPolls(app: Application, sender: (Ptr, Stack) -> Sender, s: Stack, p: Ptr)
    requires Valid(s) && p in s.pcbs && Quiet(app) && !Expired(s.pcbs[p], s.ticks)
    ensures var o := SlowStep(app, sender, s, p);
            p in o.stack.pcbs && PollCounted(s.pcbs[p], o.stack.pcbs[p]) && Polls(o.asked, p) == if Due(s.pcbs[p]) then 1 else 0
  {
    StepPolls(app, sender, s, p);
    var o := SlowStep(app, sender, s, p);
    assert |o.asked| == 1 ==> o.asked[1..] == [];
  }

  lemma {:induction false} OthersNotAsked(app: Application, sender: (Ptr, Stack) -> Sender, s: Stack, q: Ptr, p: Ptr)
    requires q in s.pcbs && p != q
    ensures Polls(SlowStep(app, sender, s, q).asked, p) == 0
  {
    StepPolls(app, sender, s, q);
    var asked := SlowStep(app, sender, s, q).asked;
    assert |asked| == 1 ==> asked[1..] == [];
  }

  /** A block that is stamped already is left alone. */
  lemma {:induction false} QuietRest(app: Application, sender: (Ptr, Stack) -> Sender, s: Stack, p: Ptr)
    requires Valid(s) && Deals(SlowDeal(app, sender)) && Quiet(app) && p in s.pcbs && !WasStale(s, p)
    ensures var t := TickFrom(SlowDeal(app, sender), s);
            p in t.stack.pcbs && t.stack.pcbs[p] == s.pcbs[p] && (p in t.stack.active <==> p in s.active) && Polls(t.asked, p) == 0
    decreases |Stale(s)|
  {
    var deal, q := SlowDeal(app, sender), FirstStale(s, s.active);
    if q != NULL {
      FewerStale(deal, s);
      SlowStepIs(app, sender, s, q);
      QuietStep(app, sender, s, q);
      OthersNotAsked(app, sender, s, q, p);
      var o := deal(s, q);
      QuietRest(app, sender, o.stack, p);
      PollsBoth(o.asked, TickFrom(deal, o.stack).asked, p);
    }
  }

  lemma {:induction false} QuietTurn(app: Application, sender: (Ptr, Stack) -> Sender, s: Stack, p: Ptr)
    requires Valid(s) && Deals(SlowDeal(app, sender)) && Quiet(app) && p in s.active && WasStale(s, p) && !Expired(s.pcbs[p], s.ticks)
    ensures var t := TickFrom(SlowDeal(app, sender), s);
            && p in t.stack.active && p in t.stack.pcbs && t.stack.pcbs[p].lastTimer == s.timerCtr
            && PollCounted(s.pcbs[p], t.stack.pcbs[p]) && Polls(t.asked, p) == if Due(s.pcbs[p]) then 1 else 0
    decreases |Stale(s)|
  {
    var deal, q := SlowDeal(app, sender), FirstStale(s, s.active);
    NoNull(s);
    FirstStaleHas(s, s.active);
    FewerStale(deal, s);
    QuietStep(app, sender, s, q);
    SlowStepIs(app, sender, s, q);
    var o := deal(s, q);
    PollsBoth(o.asked, TickFrom(deal, o.stack).asked, p);
    if q == p {
      QuietStepPolls(app, sender, s, p);
      assert SteppedAt(s, o.stack, p, p);
      QuietRest(app, sender, o.stack, p);
    } else {
      OthersNotAsked(app, sender, s, q, p);
      QuietTurn(app, sender, o.stack, p);
    }
  }

  // ---- many ticks --------------------------------------------------------------------------------

  lemma {:induction false} QuietTickPolls(app: Application, sender: (Ptr, Stack) -> Sender, s: Stack, p: Ptr)
    requires Valid(s) && Quiet(app) && p in s.active && p in s.pcbs && s.pcbs[p].lastTimer != NextStamp(s) && !Expired(s.pcbs[p], NextTick(s))
    ensures var s' := SlowEnd(app, sender, s);
            && p in s'.active && p in s'.pcbs && s'.pcbs[p].lastTimer == s'.timerCtr != NextStamp(s')
            && PollCounted(s.pcbs[p], s'.pcbs[p]) && Polls(SlowRun(app, sender, s).asked, p) == if Due(s.pcbs[p]) then 1 else 0
  {
    var s1 := s.(timerCtr := NextStamp(s), ticks := NextTick(s));
    SlowDeals(app, sender);
    GlobalsValid(s, s.changed, NextStamp(s), NextTick(s));
    QuietTurn(app, sender, s1, p);
    TickSince(SlowDeal(app, sender), s1);
    var t := SlowRun(app, sender, s).stack;
    assert Placed(t, p);
  }

  /** `s'` is the stack after a call of tcp_slowtmr that finds block `p` active, without the stamp it is
      about to get, and not expired. */
  ghost predicate Ticks(app: Application, sender: (Ptr, Stack) -> Sender, s: Stack, s': Stack, p: Ptr) {
    && Valid(s) && s' == SlowEnd(app, sender, s)
    && p in s.active && p in s.pcbs && s.pcbs[p].lastTimer != NextStamp(s) && !Expired(s.pcbs[p], NextTick(s))
  }

  lemma {:induction false} RemainderNext(x: nat, n: nat)
    requires 0 < n
    ensures (x + 1) % n == if x % n + 1 >= n then 0 else x % n + 1
  {
    var q, r := x / n, x % n;
    assert x == n * q + r;
    if r + 1 >= n {
      assert x + 1 == n * (q + 1) + 0;
      Remainder(n, q + 1, 0);
    } else {
      Remainder(n, q, r + 1);
    }
  }

  /** The count after `i` ticks, if it stood below the interval in `c`. */
  ghost predicate CountIs(b: Pcb, c: Connection, i: nat) {
    b.conn.pollInterval == c.pollInterval && c.pollTmr < c.pollInterval && b.conn.pollTmr == (c.pollTmr + i) % c.pollInterval
  }

  /** Tick `i` is one of those after which the ticks, counted from where the count stood in `c`, add up
      to a multiple of the interval. */
  predicate PolledAt(c: Connection, i: nat)
    requires 0 < c.pollInterval
  {
    (c.pollTmr + i + 1) % c.pollInterval == 0
  }

  lemma {:induction false} CountStarts(b: Pcb)
    requires b.conn.pollTmr < b.conn.pollInterval
    ensures CountIs(b, b.conn, 0)
  {
    Remainder(b.conn.pollInterval, 0, b.conn.pollTmr);
  }

  lemma {:induction false} CountNext(b: Pcb, b': Pcb, c: Connection, i: nat)
    requires CountIs(b, c, i) && PollCounted(b, b')
    ensures CountIs(b', c, i + 1) && (Due(b) <==> PolledAt(c, i))
  {
    RemainderNext(c.pollTmr + i, c.pollInterval);
  }

  lemma {:induction false} CountAt(app: Application, sender: (Ptr, Stack) -> Sender, ss: seq<Stack>, p: Ptr, i: nat)
    requires Quiet(app) && i < |ss| && (forall j :: 0 <= j < |ss| - 1 ==> Ticks(app, sender, ss[j], ss[j + 1], p))
    requires p in ss[0].pcbs && ss[0].pcbs[p].conn.pollTmr < ss[0].pcbs[p].conn.pollInterval
    ensures p in ss[i].pcbs && CountIs(ss[i].pcbs[p], ss[0].pcbs[p].conn, i)
    decreases i
  {
    if i == 0 {
      CountStarts(ss[0].pcbs[p]);
    } else {
      CountAt(app, sender, ss, p, i - 1);
      assert Ticks(app, sender, ss[i - 1], ss[i - 1 + 1], p);
      QuietTickPolls(app, sender, ss[i - 1], p);
      CountNext(ss[i - 1].pcbs[p], ss[i].pcbs[p], ss[0].pcbs[p].conn, i - 1);
    }
  }

  /** With quiet callbacks a connection is polled once in every `pollInterval` ticks. */
  lemma {:induction false} PolledEveryInterval(app: Application, sender: (Ptr, Stack) -> Sender, ss: seq<Stack>, p: Ptr, i: nat)
    requires Quiet(app) && i < |ss| - 1 && (forall j :: 0 <= j < |ss| - 1 ==> Ticks(app, sender, ss[j], ss[j + 1], p))
    requires p in ss[0].pcbs && ss[0].pcbs[p].conn.pollTmr < ss[0].pcbs[p].conn.pollInterval
    ensures var c := ss[0].pcbs[p].conn;
            Valid(ss[i]) && Polls(SlowRun(app, sender, ss[i]).asked, p) == if PolledAt(c, i) then 1 else 0
  {
    CountAt(app, sender, ss, p, i);
    assert Ticks(app, sender, ss[i], ss[i + 1], p);
    QuietTickPolls(app, sender, ss[i], p);
    CountNext(ss[i].pcbs[p], ss[i + 1].pcbs[p], ss[0].pcbs[p].conn, i);
  }
}
