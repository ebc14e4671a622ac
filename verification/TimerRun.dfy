/** The run of sys_check_timeouts. */
module TimerRun {
  // What handlers of lwip/core/timeouts.c do to the list, in unbounded time; `Timeouts` does the
  // same with 32-bit clocks.

  import opened Bytes
  import opened TimeoutList

  /** The list after some steps, the number of the next reading of the clock, and what was armed
      and cancelled. */
  datatype Ran = Ran(items: seq<Item>, k: nat, armed: multiset<Item>, cancelled: multiset<Item>)

  /** sys_timeout or sys_untimeout, called by a handler. */
  function AfterAction(items: seq<Item>, a: Action, clock: nat -> nat, k: nat): Ran {
    match a
    case Arm(msecs, handler) =>
      var x := Item(clock(k) + msecs, handler);
      Ran(Insert(items, x), k + 1, multiset{x}, multiset{})
    case Cancel(handler) =>
      var i := IndexOf(items, handler);
      Ran(Remove(items, handler), k, multiset{}, if i < |items| then multiset{items[i]} else multiset{})
  }

  function AfterWork(items: seq<Item>, work: seq<Action>, clock: nat -> nat, k: nat): Ran
    decreases work
  {
    if work == [] then Ran(items, k, multiset{}, multiset{}) else
      var r := AfterAction(items, work[0], clock, k);
      var r' := AfterWork(r.items, work[1..], clock, r.k);
      Ran(r'.items, r'.k, r.armed + r'.armed, r.cancelled + r'.cancelled)
  }

  /** One interval after it was due, or after now if that is past. */
  function NextDue(due: int, interval: nat, now: nat): int {
    if due + interval < now then now + interval else due + interval
  }

  /** Timer `x`, taken off the list, runs: a cyclic timer re-arms itself when its work is done, and
      the TCP timer starts again as long as it is needed. */
  function AfterFiring(items: seq<Item>, x: Item, clock: nat -> nat, goesOn: nat -> bool, k: nat): Ran {
    match x.handler
    case OneShot(_, work) => AfterWork(items, work, clock, k)
    case Cyclic(interval, work) =>
      var r := AfterWork(items, work, clock, k);
      var again := Item(NextDue(x.due, interval, clock(r.k)), x.handler);
      Ran(Insert(r.items, again), r.k + 1, r.armed + multiset{again}, r.cancelled)
    case Tcp =>
      if goesOn(k) then AfterAction(items, Arm(TCP_INTERVAL, Tcp), clock, k) else Ran(items, k, multiset{}, multiset{})
  }

  /** What sys_check_timeouts made of the list, and the timers that ran, in their order. */
  datatype Check = Check(items: seq<Item>, fired: seq<Item>, k: nat, armed: multiset<Item>, cancelled: multiset<Item>)

  /** sys_check_timeouts: as long as the first timer is due at `now`, it is taken off and runs. */
  ghost function AfterCheck(items: seq<Item>, clock: nat -> nat, goesOn: nat -> bool, k: nat, now: nat): Check
    requires Timers(items) && Forward(clock, now)
    decreases TotalWeight(items, now)
  {
    if items == [] || now < items[0].due then Check(items, [], k, multiset{}, multiset{}) else
      var r := AfterFiring(items[1..], items[0], clock, goesOn, k);
      FiringGoesOn(items, clock, goesOn, k, now);
      var c := AfterCheck(r.items, clock, goesOn, r.k, now);
      Check(c.items, [items[0]] + c.fired, c.k, r.armed + c.armed, r.cancelled + c.cancelled)
  }

  ghost predicate Timers(items: seq<Item>) {
    Sorted(items) && forall x :: x in items ==> Proper(x.handler)
  }

  lemma {:induction false} StoresTimers(list: seq<Timeout>, items: seq<Item>, lo: int)
    requires Stores(list, items, lo)
    ensures Timers(items)
  {
    forall x | x in items ensures Proper(x.handler) {
      var i :| 0 <= i < |items| && items[i] == x;
      assert InWindow(items[i], lo);
    }
  }

  ghost predicate Forward(clock: nat -> nat, now: nat) {
    forall i :: now <= clock(i)
  }

  // ---- why sys_check_timeouts comes to an end -----------------------------------------------------

  /** How many handlers a timer can still cause to run at time `now`: a cyclic timer that is late
      may run once more at `now` itself. */
  function Weight(h: Handler, due: int, now: int): nat {
    if now < due then 0
    else match h
      case Cyclic(_, work) => if due < now then 2 * (1 + WorkWeight(work)) else 1 + WorkWeight(work)
      case Tcp => 1
      case OneShot(_, work) => 1 + WorkWeight(work)
  }

  /** What is armed is due at `now` or later. */
  function WorkWeight(work: seq<Action>): nat {
    if work == [] then 0 else ActionWeight(work[0]) + WorkWeight(work[1..])
  }

  function ActionWeight(a: Action): nat {
    match a
    case Arm(_, handler) =>
      (match handler
       case Cyclic(_, work) => 1 + WorkWeight(work)
       case Tcp => 1
       case OneShot(_, work) => 1 + WorkWeight(work))
    case Cancel(_) => 0
  }

  function TotalWeight(items: seq<Item>, now: int): nat {
    if items == [] then 0 else Weight(items[0].handler, items[0].due, now) + TotalWeight(items[1..], now)
  }

  lemma {:induction false} WeightConcat(a: seq<Item>, b: seq<Item>, now: int)
    ensures TotalWeight(a + b, now) == TotalWeight(a, now) + TotalWeight(b, now)
    decreases |a|
  {
    if a == [] {
      assert a + b == b;
    } else {
      assert (a + b)[1..] == a[1..] + b;
      WeightConcat(a[1..], b, now);
    }
  }

  lemma {:induction false} WeightInsert(items: seq<Item>, x: Item, now: int)
    ensures TotalWeight(Insert(items, x), now) == TotalWeight(items, now) + Weight(x.handler, x.due, now)
    decreases |items|
  {
    if items == [] || x.due < items[0].due {
      assert ([x] + items)[1..] == items;
    } else {
      WeightInsert(items[1..], x, now);
      assert ([items[0]] + Insert(items[1..], x))[1..] == Insert(items[1..], x);
    }
  }

  lemma {:induction false} WeightRemove(items: seq<Item>, h: Handler, now: int)
    ensures TotalWeight(Remove(items, h), now) <= TotalWeight(items, now)
  {
    var k := IndexOf(items, h);
    if k < |items| {
      WeightConcat(items[..k], items[k..], now);
      WeightConcat(items[..k], items[k + 1..], now);
      assert items == items[..k] + items[k..] && items[k..][1..] == items[k + 1..];
    }
  }

  lemma {:induction false} ArmedWeight(a: Action, due: int, now: int)
    requires a.Arm? && now <= due
    ensures Weight(a.handler, due, now) <= ActionWeight(a)
  {
  }

  // ---- what single steps do --------------------------------------------------------------------

  /** `items` were changed by what handlers did: armed timers came, cancelled ones went. */
  ghost predicate Changed(before: seq<Item>, after: seq<Item>, armed: multiset<Item>, gone: multiset<Item>, now: int) {
    && multiset(after) + gone == multiset(before) + armed
    && (forall x :: x in armed ==> now <= x.due)
  }

  lemma {:induction false} ChangedThen(a: seq<Item>, b: seq<Item>, c: seq<Item>, ab: multiset<Item>, gb: multiset<Item>,
                                       ac: multiset<Item>, gc: multiset<Item>, now: int)
    requires Changed(a, b, ab, gb, now) && Changed(b, c, ac, gc, now)
    ensures Changed(a, c, ab + ac, gb + gc, now)
  {
    forall x ensures (multiset(c) + (gb + gc))[x] == (multiset(a) + (ab + ac))[x] {
      assert (multiset(b) + gb)[x] == (multiset(a) + ab)[x];
      assert (multiset(c) + gc)[x] == (multiset(b) + ac)[x];
    }
    assert multiset(c) + (gb + gc) == multiset(a) + (ab + ac);
  }

  lemma {:induction false} InsertChanges(items: seq<Item>, x: Item, now: int)
    requires Sorted(items) && now <= x.due
    ensures Changed(items, Insert(items, x), multiset{x}, multiset{}, now)
  {
    InsertSorted(items, x);
  }

  lemma {:induction false} RemoveChanges(items: seq<Item>, h: Handler, now: int)
    ensures var k := IndexOf(items, h);
            Changed(items, Remove(items, h), multiset{}, if k < |items| then multiset{items[k]} else multiset{}, now)
  {
    var k := IndexOf(items, h);
    if k < |items| {
      assert items == items[..k] + [items[k]] + items[k + 1..];
    }
  }

  lemma {:induction false} InsertTimers(items: seq<Item>, x: Item)
    requires Timers(items) && Proper(x.handler)
    ensures Timers(Insert(items, x)) && x in Insert(items, x)
  {
    InsertSorted(items, x);
    forall y | y in Insert(items, x) ensures Proper(y.handler) { assert y in multiset(items) + multiset{x}; }
    assert x in multiset(Insert(items, x));
  }

  lemma {:induction false} RemoveTimers(items: seq<Item>, h: Handler)
    requires Timers(items)
    ensures Timers(Remove(items, h))
  {
  }

  /** What a step may do to the timers: it keeps them in order, and weighs no more than `weight`. */
  ghost predicate Does(before: seq<Item>, r: Ran, now: nat, weight: nat) {
    Weighs(before, r, now, weight) && Timers(r.items) && Changes(before, r, now)
  }

  ghost predicate Weighs(before: seq<Item>, r: Ran, now: nat, weight: nat) {
    TotalWeight(r.items, now) <= TotalWeight(before, now) + weight
  }

  ghost predicate Changes(before: seq<Item>, r: Ran, now: nat) {
    Changed(before, r.items, r.armed, r.cancelled, now)
  }

  lemma {:induction false} InsertDoes(items: seq<Item>, x: Item, r: Ran, now: nat, weight: nat)
    requires Timers(items) && Proper(x.handler) && now <= x.due && Weight(x.handler, x.due, now) <= weight
    requires r == Ran(Insert(items, x), r.k, multiset{x}, multiset{})
    ensures Does(items, r, now, weight)
  {
    InsertTimers(items, x);
    InsertChanges(items, x, now);
    WeightInsert(items, x, now);
  }

  lemma {:induction false} RemoveDoes(items: seq<Item>, h: Handler, clock: nat -> nat, k: nat, now: nat)
    requires Timers(items)
    ensures Does(items, AfterAction(items, Cancel(h), clock, k), now, 0)
    ensures forall x :: x in AfterAction(items, Cancel(h), clock, k).cancelled ==> x.handler == h
  {
    RemoveTimers(items, h);
    RemoveChanges(items, h, now);
    WeightRemove(items, h, now);
  }

  lemma {:induction false} ActionDoes(items: seq<Item>, a: Action, clock: nat -> nat, k: nat, now: nat)
    requires Timers(items) && ProperAction(a) && Forward(clock, now)
    ensures Does(items, AfterAction(items, a, clock, k), now, ActionWeight(a))
    ensures forall x :: x in AfterAction(items, a, clock, k).cancelled ==> a == Cancel(x.handler)
  {
    match a {
      case Arm(msecs, handler) =>
        assert now <= clock(k);
        ArmedWeight(a, clock(k) + msecs, now);
        InsertDoes(items, Item(clock(k) + msecs, handler), AfterAction(items, a, clock, k), now, ActionWeight(a));
      case Cancel(handler) => RemoveDoes(items, handler, clock, k, now);
    }
  }

  /** Only what its script cancels is cancelled. */
  lemma {:induction false} WorkDoes(items: seq<Item>, work: seq<Action>, clock: nat -> nat, k: nat, now: nat)
    requires Timers(items) && ProperWork(work) && Forward(clock, now)
    ensures Does(items, AfterWork(items, work, clock, k), now, WorkWeight(work))
    ensures forall x :: x in AfterWork(items, work, clock, k).cancelled ==> Cancel(x.handler) in work
    decreases work
  {
    if work != [] {
      var r := AfterAction(items, work[0], clock, k);
      var r' := AfterWork(r.items, work[1..], clock, r.k);
      ActionDoes(items, work[0], clock, k, now);
      WorkDoes(r.items, work[1..], clock, r.k, now);
      ChangedThen(items, r.items, r'.items, r.armed, r.cancelled, r'.armed, r'.cancelled, now);
    }
  }

  function WorkOf(h: Handler): seq<Action> {
    match h
    case OneShot(_, work) => work
    case Cyclic(_, work) => work
    case Tcp => []
  }

  ghost predicate Armed(items: seq<Item>, h: Handler) {
    exists x :: x in items && x.handler == h
  }

  /** A timer that ran weighs more than what it leaves behind, and a cyclic one is armed again. */
  lemma {:induction false} FiringDoes(items: seq<Item>, x: Item, clock: nat -> nat, goesOn: nat -> bool, k: nat, now: nat)
    requires Timers(items) && Proper(x.handler) && Forward(clock, now) && x.due <= now
    ensures var r := AfterFiring(items, x, clock, goesOn, k);
            && Does(items, r, now, Weight(x.handler, x.due, now) - 1)
            && (forall y :: y in r.cancelled ==> Cancel(y.handler) in WorkOf(x.handler))
            && (x.handler.Cyclic? ==> Armed(r.items, x.handler))
  {
    match x.handler {
      case OneShot(_, work) => WorkDoes(items, work, clock, k, now);
      case Cyclic(_, work) => CyclicDoes(items, x, clock, goesOn, k, now);
      case Tcp => TcpDoes(items, x, clock, goesOn, k, now);
    }
  }

  lemma {:induction false} TcpDoes(items: seq<Item>, x: Item, clock: nat -> nat, goesOn: nat -> bool, k: nat, now: nat)
    requires Timers(items) && x.handler.Tcp? && Forward(clock, now)
    ensures var r := AfterFiring(items, x, clock, goesOn, k);
            Does(items, r, now, 0) && r.cancelled == multiset{}
  {
    assert now <= clock(k);
    var r := AfterFiring(items, x, clock, goesOn, k);
    if goesOn(k) { InsertDoes(items, Item(clock(k) + TCP_INTERVAL, Tcp), r, now, 0); }
  }

  lemma {:induction false} CyclicDoes(items: seq<Item>, x: Item, clock: nat -> nat, goesOn: nat -> bool, k: nat, now: nat)
    requires Timers(items) && x.handler.Cyclic? && Proper(x.handler) && Forward(clock, now) && x.due <= now
    ensures var r := AfterFiring(items, x, clock, goesOn, k);
            && Does(items, r, now, Weight(x.handler, x.due, now) - 1)
            && (forall y :: y in r.cancelled ==> Cancel(y.handler) in x.handler.work)
            && Armed(r.items, x.handler)
  {
    var r := AfterWork(items, x.handler.work, clock, k);
    var again := Item(NextDue(x.due, x.handler.interval, clock(r.k)), x.handler);
    WorkDoes(items, x.handler.work, clock, k, now);
    assert now <= clock(r.k);
    RearmedDoes(items, r, again, AfterFiring(items, x, clock, goesOn, k), now, WorkWeight(x.handler.work), Weight(x.handler, x.due, now) - 1);
  }

  lemma {:induction false} RearmedDoes(items: seq<Item>, r: Ran, x: Item, r': Ran, now: nat, before: nat, weight: nat)
    requires Does(items, r, now, before) && Proper(x.handler) && now <= x.due && before + Weight(x.handler, x.due, now) <= weight
    requires r' == Ran(Insert(r.items, x), r'.k, r.armed + multiset{x}, r.cancelled)
    ensures Does(items, r', now, weight) && Armed(r'.items, x.handler)
  {
    InsertTimers(r.items, x);
    InsertChanges(r.items, x, now);
    WeightInsert(r.items, x, now);
    ChangedThen(items, r.items, r'.items, r.armed, r.cancelled, multiset{x}, multiset{}, now);
    assert r.cancelled + multiset{} == r.cancelled;
  }

  lemma {:induction false} FiringGoesOn(items: seq<Item>, clock: nat -> nat, goesOn: nat -> bool, k: nat, now: nat)
    requires Timers(items) && Forward(clock, now) && items != [] && items[0].due <= now
    ensures var r := AfterFiring(items[1..], items[0], clock, goesOn, k);
            Timers(r.items) && TotalWeight(r.items, now) < TotalWeight(items, now) && Changed(items[1..], r.items, r.armed, r.cancelled, now)
  {
    assert Timers(items[1..]);
    FiringDoes(items[1..], items[0], clock, goesOn, k, now);
  }

  // ---- the run of sys_check_timeouts --------------------------------------------------------------

  /** The run that ends with `end` has come to these timers, and those in `ran` were called. */
  ghost predicate Continues(end: Check, ran0: seq<Item>, items: seq<Item>, ran: seq<Item>, clock: nat -> nat, goesOn: nat -> bool, k: nat, now: nat) {
    && Timers(items) && Forward(clock, now)
    && end.items == AfterCheck(items, clock, goesOn, k, now).items
    && ran0 + end.fired == ran + AfterCheck(items, clock, goesOn, k, now).fired
  }

  lemma {:induction false} ContinuesNext(end: Check, ran0: seq<Item>, items: seq<Item>, ran: seq<Item>, clock: nat -> nat, goesOn: nat -> bool, k: nat, now: nat)
    requires Continues(end, ran0, items, ran, clock, goesOn, k, now) && items != [] && items[0].due <= now
    ensures var r := AfterFiring(items[1..], items[0], clock, goesOn, k);
            Continues(end, ran0, r.items, ran + [items[0]], clock, goesOn, r.k, now)
  {
    var r := AfterFiring(items[1..], items[0], clock, goesOn, k);
    FiringGoesOn(items, clock, goesOn, k, now);
    var rest := AfterCheck(r.items, clock, goesOn, r.k, now).fired;
    assert ran + ([items[0]] + rest) == ran + [items[0]] + rest;
  }

  /** None of the timers due at `now` is left, and those armed meanwhile are not due before. */
  lemma {:induction false} NoneDueLeft(items: seq<Item>, clock: nat -> nat, goesOn: nat -> bool, k: nat, now: nat)
    requires Timers(items) && Forward(clock, now)
    ensures var c := AfterCheck(items, clock, goesOn, k, now);
            && Timers(c.items) && (forall x :: x in c.items ==> now < x.due)
            && (forall x :: x in c.armed ==> now <= x.due)
    decreases TotalWeight(items, now)
  {
    if items != [] && items[0].due <= now {
      FiringGoesOn(items, clock, goesOn, k, now);
      var r := AfterFiring(items[1..], items[0], clock, goesOn, k);
      NoneDueLeft(r.items, clock, goesOn, r.k, now);
    }
  }

  /** `fired` is sorted, and everything in it comes after `t`. */
  ghost predicate InOrder(fired: seq<Item>, t: int, now: int) {
    Sorted(fired) && forall f :: f in fired ==> t <= f.due <= now
  }

  /** Timers run in the order of their times, though handlers arm others meanwhile. */
  lemma {:induction false} FiredInOrder(items: seq<Item>, clock: nat -> nat, goesOn: nat -> bool, k: nat, now: nat, t: int)
    requires Timers(items) && Forward(clock, now) && t <= now && (items != [] ==> t <= items[0].due)
    ensures InOrder(AfterCheck(items, clock, goesOn, k, now).fired, t, now)
    decreases TotalWeight(items, now)
  {
    if items != [] && items[0].due <= now {
      FiringGoesOn(items, clock, goesOn, k, now);
      var r := AfterFiring(items[1..], items[0], clock, goesOn, k);
      NotEarlier(items, r, now);
      FiredInOrder(r.items, clock, goesOn, r.k, now, items[0].due);
    }
  }

  lemma {:induction false} NotEarlier(items: seq<Item>, r: Ran, now: nat)
    requires Timers(items) && items != [] && items[0].due <= now && Timers(r.items) && Changed(items[1..], r.items, r.armed, r.cancelled, now)
    ensures r.items != [] ==> items[0].due <= r.items[0].due
  {
    if r.items != [] {
      var x := r.items[0];
      assert x in multiset(r.items) + r.cancelled;
      if x !in r.armed {
        assert x in multiset(items[1..]);
        var i :| 0 <= i < |items[1..]| && items[1..][i] == x;
        assert items[0].due <= items[i + 1].due;
      }
    }
  }

  /** Every timer that was in the list or was armed has run, was cancelled, or is in the list. */
  lemma {:induction false} Balance(items: seq<Item>, clock: nat -> nat, goesOn: nat -> bool, k: nat, now: nat)
    requires Timers(items) && Forward(clock, now)
    ensures var c := AfterCheck(items, clock, goesOn, k, now);
            multiset(c.items) + multiset(c.fired) + c.cancelled == multiset(items) + c.armed
    decreases TotalWeight(items, now)
  {
    if items != [] && items[0].due <= now {
      FiringGoesOn(items, clock, goesOn, k, now);
      var r := AfterFiring(items[1..], items[0], clock, goesOn, k);
      Balance(r.items, clock, goesOn, r.k, now);
      BalanceNext(items, r, AfterCheck(r.items, clock, goesOn, r.k, now), now);
    }
  }

  lemma {:induction false} BalanceNext(items: seq<Item>, r: Ran, c: Check, now: nat)
    requires items != [] && Changed(items[1..], r.items, r.armed, r.cancelled, now)
    requires multiset(c.items) + multiset(c.fired) + c.cancelled == multiset(r.items) + c.armed
    ensures multiset(c.items) + multiset([items[0]] + c.fired) + (r.cancelled + c.cancelled) == multiset(items) + (r.armed + c.armed)
  {
    assert items == [items[0]] + items[1..];
    forall x ensures (multiset(c.items) + multiset([items[0]] + c.fired) + (r.cancelled + c.cancelled))[x] == (multiset(items) + (r.armed + c.armed))[x] {
      assert (multiset(c.items) + multiset(c.fired) + c.cancelled)[x] == (multiset(r.items) + c.armed)[x];
      assert (multiset(r.items) + r.cancelled)[x] == (multiset(items[1..]) + r.armed)[x];
      assert multiset(items)[x] == multiset{items[0]}[x] + multiset(items[1..])[x];
    }
  }

  /** The work of a timer that ran cancels timers with handler `h`. */
  ghost predicate Cancels(fired: seq<Item>, h: Handler) {
    exists f :: f in fired && Cancel(h) in WorkOf(f.handler)
  }

  lemma {:induction false} CancelsRest(x: Item, fired: seq<Item>, h: Handler)
    ensures Cancels([x] + fired, h) <==> Cancel(h) in WorkOf(x.handler) || Cancels(fired, h)
  {
    assert x in [x] + fired;
    forall f | f in fired ensures f in [x] + fired {}
  }

  /** Only what a timer that ran cancels is cancelled. */
  lemma {:induction false} CancelledByWork(items: seq<Item>, clock: nat -> nat, goesOn: nat -> bool, k: nat, now: nat, x: Item)
    requires Timers(items) && Forward(clock, now) && x in AfterCheck(items, clock, goesOn, k, now).cancelled
    ensures Cancels(AfterCheck(items, clock, goesOn, k, now).fired, x.handler)
    decreases TotalWeight(items, now)
  {
    if items != [] && items[0].due <= now {
      FiringGoesOn(items, clock, goesOn, k, now);
      FiringDoes(items[1..], items[0], clock, goesOn, k, now);
      var r := AfterFiring(items[1..], items[0], clock, goesOn, k);
      var c := AfterCheck(r.items, clock, goesOn, r.k, now);
      CancelsRest(items[0], c.fired, x.handler);
      if x !in r.cancelled {
        assert x in c.cancelled;
        CancelledByWork(r.items, clock, goesOn, r.k, now, x);
      }
    }
  }

  /** A timer that is due runs, unless one that runs cancels its handler. */
  lemma {:induction false} DueRuns(items: seq<Item>, clock: nat -> nat, goesOn: nat -> bool, k: nat, now: nat, x: Item)
    requires Timers(items) && Forward(clock, now) && x in items && x.due <= now
    ensures var c := AfterCheck(items, clock, goesOn, k, now);
            x in c.fired || Cancels(c.fired, x.handler)
  {
    var c := AfterCheck(items, clock, goesOn, k, now);
    Balance(items, clock, goesOn, k, now);
    NoneDueLeft(items, clock, goesOn, k, now);
    assert x in multiset(items) + c.armed;
    if x in c.cancelled { CancelledByWork(items, clock, goesOn, k, now, x); }
  }

  /** A timer that is not due stays, unless one that runs cancels its handler. */
  lemma {:induction false} NotDueStays(items: seq<Item>, clock: nat -> nat, goesOn: nat -> bool, k: nat, now: nat, x: Item)
    requires Timers(items) && Forward(clock, now) && x in items && now < x.due
    ensures var c := AfterCheck(items, clock, goesOn, k, now);
            x in c.items || Cancels(c.fired, x.handler)
  {
    var c := AfterCheck(items, clock, goesOn, k, now);
    Balance(items, clock, goesOn, k, now);
    FiredInOrder(items, clock, goesOn, k, now, if items == [] || now < items[0].due then now else items[0].due);
    assert x in multiset(items) + c.armed;
    if x in c.cancelled { CancelledByWork(items, clock, goesOn, k, now, x); }
  }

  /** A cyclic timer is never lost: it is in the list afterwards, unless one that runs cancels it. */
  lemma {:induction false} CyclicGoesOn(items: seq<Item>, clock: nat -> nat, goesOn: nat -> bool, k: nat, now: nat, h: Handler)
    requires Timers(items) && Forward(clock, now) && h.Cyclic? && Armed(items, h)
    ensures var c := AfterCheck(items, clock, goesOn, k, now);
            Armed(c.items, h) || Cancels(c.fired, h)
    decreases TotalWeight(items, now)
  {
    if items != [] && items[0].due <= now {
      var r := AfterFiring(items[1..], items[0], clock, goesOn, k);
      FiringGoesOn(items, clock, goesOn, k, now);
      FiringDoes(items[1..], items[0], clock, goesOn, k, now);
      CancelsRest(items[0], AfterCheck(r.items, clock, goesOn, r.k, now).fired, h);
      if Cancel(h) !in WorkOf(items[0].handler) {
        StillArmed(items, r, now, h);
        CyclicGoesOn(r.items, clock, goesOn, r.k, now, h);
      }
    }
  }

  lemma {:induction false} StillArmed(items: seq<Item>, r: Ran, now: nat, h: Handler)
    requires items != [] && Changed(items[1..], r.items, r.armed, r.cancelled, now) && Armed(items, h)
    requires forall y :: y in r.cancelled ==> y.handler != h
    requires items[0].handler == h ==> Armed(r.items, h)
    ensures Armed(r.items, h)
  {
    var x :| x in items && x.handler == h;
    if items[0].handler != h {
      assert items == [items[0]] + items[1..];
      assert x in multiset(items[1..]) + r.armed;
      assert x in multiset(r.items) + r.cancelled;
    }
  }
}
