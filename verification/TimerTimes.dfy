/** When timers are due. */
module TimerTimes {
  // What handlers do to the list, step by step: `TimerRun` computes these lists, and here it is said
  // what they are.

  import opened TimeoutList
  import opened TimerRun

  // ---- single steps ------------------------------------------------------------------------------

  /** `x` was put behind all that are not due later, and nothing else happened. */
  ghost predicate Inserted(items: seq<Item>, x: Item, items': seq<Item>) {
    exists i :: 0 <= i <= |items| && InsertedAt(items, x, i, items')
  }

  ghost predicate InsertedAt(items: seq<Item>, x: Item, i: nat, items': seq<Item>)
    requires i <= |items|
  {
    && items' == items[..i] + [x] + items[i..]
    && (forall j :: 0 <= j < i ==> items[j].due <= x.due) && (forall j :: i <= j < |items| ==> x.due < items[j].due)
  }

  /** The first timer with handler `h` was taken away, if there is one, and nothing else happened. */
  ghost predicate Cancelled(items: seq<Item>, h: Handler, items': seq<Item>) {
    || (items' == items && forall x :: x in items ==> x.handler != h)
    || exists i :: 0 <= i < |items| && items[i].handler == h && (forall j :: 0 <= j < i ==> items[j].handler != h) && items' == items[..i] + items[i + 1..]
  }

  /** The next reading of the clock after this action. */
  function Reading(a: Action, k: nat): nat {
    if a.Arm? then k + 1 else k
  }

  /** A timer is armed for `msecs` after what the clock reads, or the first one with the handler goes. */
  ghost predicate Effect(items: seq<Item>, a: Action, time: nat, items': seq<Item>) {
    match a
    case Arm(msecs, handler) => Inserted(items, Item(time + msecs, handler), items')
    case Cancel(handler) => Cancelled(items, handler, items')
  }

  /** The actions of a script take effect one after the other; the clock is read once for each timer
      that is armed. */
  ghost predicate Effects(items: seq<Item>, work: seq<Action>, clock: nat -> nat, k: nat, items': seq<Item>, k': nat)
    decreases work
  {
    if work == [] then items' == items && k' == k
    else exists mid :: Effect(items, work[0], clock(k), mid) && Effects(mid, work[1..], clock, Reading(work[0], k), items', k')
  }

  lemma {:induction false} InsertInserts(items: seq<Item>, x: Item)
    requires Sorted(items)
    ensures Inserted(items, x, Insert(items, x))
  {
    InsertIs(items, x);
    assert InsertedAt(items, x, PlaceOf(items, x), Insert(items, x));
  }

  lemma {:induction false} RemoveCancels(items: seq<Item>, h: Handler)
    ensures Cancelled(items, h, Remove(items, h))
  {
    var i := IndexOf(items, h);
    if i < |items| { assert items[i].handler == h && Remove(items, h) == items[..i] + items[i + 1..]; }
  }

  lemma {:induction false} ActionEffect(items: seq<Item>, a: Action, clock: nat -> nat, k: nat)
    requires Sorted(items)
    ensures var r := AfterAction(items, a, clock, k);
            Effect(items, a, clock(k), r.items) && r.k == Reading(a, k)
  {
    match a {
      case Arm(msecs, handler) => InsertInserts(items, Item(clock(k) + msecs, handler));
      case Cancel(handler) => RemoveCancels(items, handler);
    }
  }

  lemma {:induction false} WorkEffects(items: seq<Item>, work: seq<Action>, clock: nat -> nat, k: nat, now: nat)
    requires Timers(items) && ProperWork(work) && Forward(clock, now)
    ensures var r := AfterWork(items, work, clock, k);
            Effects(items, work, clock, k, r.items, r.k)
    decreases work
  {
    if work != [] {
      var r := AfterAction(items, work[0], clock, k);
      ActionEffect(items, work[0], clock, k);
      ActionDoes(items, work[0], clock, k, now);
      WorkEffects(r.items, work[1..], clock, r.k, now);
    }
  }

  // ---- a timer that fires ------------------------------------------------------------------------

  /** When a cyclic timer that was due at `due` and has done its work at `time` is due again. */
  ghost predicate DueAgain(due: int, interval: nat, time: nat, next: int) {
    (time <= due + interval && next == due + interval) || (due + interval < time && next == time + interval)
  }

  /** Timer `x`, not in `items` any more, has run: its script took effect; then a cyclic timer is in
      the list again, and the TCP timer if it is needed. */
  ghost predicate Ran1(items: seq<Item>, x: Item, clock: nat -> nat, goesOn: nat -> bool, k: nat, items': seq<Item>, k': nat) {
    match x.handler
    case OneShot(_, work) => Effects(items, work, clock, k, items', k')
    case Cyclic(interval, work) =>
      exists mid: seq<Item>, j: nat, next: int :: Effects(items, work, clock, k, mid, j) && DueAgain(x.due, interval, clock(j), next) && Inserted(mid, Item(next, x.handler), items') && k' == j + 1
    case Tcp => if goesOn(k) then Inserted(items, Item(clock(k) + TCP_INTERVAL, Tcp), items') && k' == k + 1 else items' == items && k' == k
  }

  lemma {:induction false} FiringRan(items: seq<Item>, x: Item, clock: nat -> nat, goesOn: nat -> bool, k: nat, now: nat)
    requires Timers(items) && Proper(x.handler) && Forward(clock, now)
    ensures var r := AfterFiring(items, x, clock, goesOn, k);
            Ran1(items, x, clock, goesOn, k, r.items, r.k)
  {
    match x.handler {
      case OneShot(_, work) => WorkEffects(items, work, clock, k, now);
      case Cyclic(interval, work) => CyclicRan(items, x, clock, goesOn, k, now);
      case Tcp => if goesOn(k) { InsertInserts(items, Item(clock(k) + TCP_INTERVAL, Tcp)); }
    }
  }

  lemma {:induction false} CyclicRan(items: seq<Item>, x: Item, clock: nat -> nat, goesOn: nat -> bool, k: nat, now: nat)
    requires Timers(items) && x.handler.Cyclic? && Proper(x.handler) && Forward(clock, now)
    ensures var r := AfterFiring(items, x, clock, goesOn, k);
            Ran1(items, x, clock, goesOn, k, r.items, r.k)
  {
    var r := AfterWork(items, x.handler.work, clock, k);
    var next := NextDue(x.due, x.handler.interval, clock(r.k));
    WorkEffects(items, x.handler.work, clock, k, now);
    WorkDoes(items, x.handler.work, clock, k, now);
    InsertInserts(r.items, Item(next, x.handler));
    assert DueAgain(x.due, x.handler.interval, clock(r.k), next);
  }

  // ---- a check -----------------------------------------------------------------------------------

  /** The timers in `fired` ran one after the other, each when it was the first and due, and then
      none is due any more. */
  ghost predicate Fires(items: seq<Item>, fired: seq<Item>, clock: nat -> nat, goesOn: nat -> bool, k: nat, now: nat, items': seq<Item>)
    decreases |fired|
  {
    if fired == [] then items' == items && (items != [] ==> now < items[0].due)
    else
      && items != [] && items[0] == fired[0] && items[0].due <= now
      && exists mid: seq<Item>, j: nat :: Ran1(items[1..], fired[0], clock, goesOn, k, mid, j) && Fires(mid, fired[1..], clock, goesOn, j, now, items')
  }

  lemma {:induction false} CheckFires(items: seq<Item>, clock: nat -> nat, goesOn: nat -> bool, k: nat, now: nat)
    requires Timers(items) && Forward(clock, now)
    ensures var c := AfterCheck(items, clock, goesOn, k, now);
            Fires(items, c.fired, clock, goesOn, k, now, c.items)
    decreases TotalWeight(items, now)
  {
    if items != [] && items[0].due <= now {
      var r := AfterFiring(items[1..], items[0], clock, goesOn, k);
      FiringGoesOn(items, clock, goesOn, k, now);
      assert Timers(items[1..]);
      FiringRan(items[1..], items[0], clock, goesOn, k, now);
      CheckFires(r.items, clock, goesOn, r.k, now);
      var c, rest := AfterCheck(items, clock, goesOn, k, now), AfterCheck(r.items, clock, goesOn, r.k, now);
      assert c.fired == [items[0]] + rest.fired && c.fired[1..] == rest.fired;
    }
  }

  // ---- where armed timers come from -------------------------------------------------------------

  /** A script arms `x` when the clock reads `time`. */
  ghost predicate Arms(work: seq<Action>, x: Item, time: nat) {
    exists a :: a in work && a.Arm? && a.handler == x.handler && x.due == time + a.msecs
  }

  /** `x` was armed by timer `f`, which ran, when the clock read `time`: by its script, for the time
      the script says; or it is `f` itself, in its next interval, or the next tick of TCP. */
  ghost predicate ArmedBy(f: Item, x: Item, time: nat) {
    || Arms(WorkOf(f.handler), x, time)
    || (f.handler.Cyclic? && x.handler == f.handler && DueAgain(f.due, f.handler.interval, time, x.due))
    || (f.handler.Tcp? && x == Item(time + TCP_INTERVAL, Tcp))
  }

  lemma {:induction false} WorkArms(items: seq<Item>, work: seq<Action>, clock: nat -> nat, k: nat, x: Item)
    requires x in AfterWork(items, work, clock, k).armed
    ensures exists i :: k <= i < AfterWork(items, work, clock, k).k && Arms(work, x, clock(i))
    decreases work
  {
    var r := AfterAction(items, work[0], clock, k);
    var r' := AfterWork(r.items, work[1..], clock, r.k);
    WorkReads(r.items, work[1..], clock, r.k);
    if x in r.armed {
      assert work[0] in work && Arms(work, x, clock(k));
    } else {
      WorkArms(r.items, work[1..], clock, r.k, x);
      var i :| r.k <= i < r'.k && Arms(work[1..], x, clock(i));
      assert Arms(work, x, clock(i));
    }
  }

  lemma {:induction false} WorkReads(items: seq<Item>, work: seq<Action>, clock: nat -> nat, k: nat)
    ensures k <= AfterWork(items, work, clock, k).k
    decreases work
  {
    if work != [] {
      var r := AfterAction(items, work[0], clock, k);
      WorkReads(r.items, work[1..], clock, r.k);
    }
  }

  lemma {:induction false} FiringArms(items: seq<Item>, f: Item, clock: nat -> nat, goesOn: nat -> bool, k: nat, x: Item)
    requires x in AfterFiring(items, f, clock, goesOn, k).armed
    ensures exists i :: k <= i < AfterFiring(items, f, clock, goesOn, k).k && ArmedBy(f, x, clock(i))
  {
    if f.handler.Tcp? {
      assert ArmedBy(f, x, clock(k));
    } else {
      var r := AfterWork(items, WorkOf(f.handler), clock, k);
      WorkReads(items, WorkOf(f.handler), clock, k);
      if x in r.armed { ArmedInWork(items, f, clock, k, r.k, x); } else { assert ArmedBy(f, x, clock(r.k)); }
    }
  }

  lemma {:induction false} ArmedInWork(items: seq<Item>, f: Item, clock: nat -> nat, k: nat, n: nat, x: Item)
    requires x in AfterWork(items, WorkOf(f.handler), clock, k).armed && n == AfterWork(items, WorkOf(f.handler), clock, k).k
    ensures exists i :: k <= i < n && ArmedBy(f, x, clock(i))
  {
    WorkArms(items, WorkOf(f.handler), clock, k, x);
    var i :| k <= i < n && Arms(WorkOf(f.handler), x, clock(i));
    assert ArmedBy(f, x, clock(i));
  }

  /** Whatever is armed during a check was armed by a timer that ran, by one of the clock readings of
      this check. */
  lemma {:induction false} ArmedHasOrigin(items: seq<Item>, clock: nat -> nat, goesOn: nat -> bool, k: nat, now: nat, x: Item)
    requires Timers(items) && Forward(clock, now) && x in AfterCheck(items, clock, goesOn, k, now).armed
    ensures var c := AfterCheck(items, clock, goesOn, k, now);
            exists f, i :: f in c.fired && k <= i < c.k && ArmedBy(f, x, clock(i))
    decreases TotalWeight(items, now)
  {
    var r := AfterFiring(items[1..], items[0], clock, goesOn, k);
    FiringGoesOn(items, clock, goesOn, k, now);
    var c, rest := AfterCheck(items, clock, goesOn, k, now), AfterCheck(r.items, clock, goesOn, r.k, now);
    CheckReads(r.items, clock, goesOn, r.k, now);
    FiringReads(items[1..], items[0], clock, goesOn, k);
    if x in r.armed {
      FiringArms(items[1..], items[0], clock, goesOn, k, x);
      var i :| k <= i < r.k && ArmedBy(items[0], x, clock(i));
      assert items[0] in c.fired && k <= i < c.k;
    } else {
      ArmedHasOrigin(r.items, clock, goesOn, r.k, now, x);
      var f, i :| f in rest.fired && r.k <= i < rest.k && ArmedBy(f, x, clock(i));
      assert f in c.fired && k <= i < c.k;
    }
  }

  lemma {:induction false} FiringReads(items: seq<Item>, f: Item, clock: nat -> nat, goesOn: nat -> bool, k: nat)
    ensures k <= AfterFiring(items, f, clock, goesOn, k).k
  {
    WorkReads(items, WorkOf(f.handler), clock, k);
  }

  lemma {:induction false} CheckReads(items: seq<Item>, clock: nat -> nat, goesOn: nat -> bool, k: nat, now: nat)
    requires Timers(items) && Forward(clock, now)
    ensures k <= AfterCheck(items, clock, goesOn, k, now).k
    decreases TotalWeight(items, now)
  {
    if items != [] && items[0].due <= now {
      FiringGoesOn(items, clock, goesOn, k, now);
      FiringReads(items[1..], items[0], clock, goesOn, k);
      var r := AfterFiring(items[1..], items[0], clock, goesOn, k);
      CheckReads(r.items, clock, goesOn, r.k, now);
    }
  }

  /** A cyclic timer that ran was armed for its next interval. */
  lemma {:induction false} CyclicRearmed(items: seq<Item>, clock: nat -> nat, goesOn: nat -> bool, k: nat, now: nat, f: Item)
    requires Timers(items) && Forward(clock, now) && f in AfterCheck(items, clock, goesOn, k, now).fired && f.handler.Cyclic?
    ensures var c := AfterCheck(items, clock, goesOn, k, now);
            exists x, i :: x in c.armed && k <= i < c.k && x.handler == f.handler && DueAgain(f.due, f.handler.interval, clock(i), x.due)
    decreases TotalWeight(items, now)
  {
    var r := AfterFiring(items[1..], items[0], clock, goesOn, k);
    FiringGoesOn(items, clock, goesOn, k, now);
    var c, rest := AfterCheck(items, clock, goesOn, k, now), AfterCheck(r.items, clock, goesOn, r.k, now);
    CheckReads(r.items, clock, goesOn, r.k, now);
    FiringReads(items[1..], items[0], clock, goesOn, k);
    if f == items[0] {
      var j := AfterWork(items[1..], f.handler.work, clock, k).k;
      WorkReads(items[1..], f.handler.work, clock, k);
      var x := Item(NextDue(f.due, f.handler.interval, clock(j)), f.handler);
      assert x in c.armed && k <= j < c.k && DueAgain(f.due, f.handler.interval, clock(j), x.due);
    } else {
      CyclicRearmed(r.items, clock, goesOn, r.k, now, f);
      var x, i :| x in rest.armed && r.k <= i < rest.k && x.handler == f.handler && DueAgain(f.due, f.handler.interval, clock(i), x.due);
      assert x in c.armed && k <= i < c.k;
    }
  }

  // ---- no drift ------------------------------------------------------------------------------------

  /** A call of sys_check_timeouts: the list it finds, and what it reads. */
  datatype Round = Round(items: seq<Item>, clock: nat -> nat, goesOn: nat -> bool)
  {
    ghost predicate Valid() {
      Timers(items) && Forward(clock, clock(0))
    }

    ghost function Outcome(): Check
      requires Valid()
    {
      AfterCheck(items, clock, goesOn, 1, clock(0))
    }
  }

  /** The check comes when the timer with handler `h` is due at `due`, and all is done within its interval. */
  ghost predicate OnTime(r: Round, h: Handler, due: int)
    requires h.Cyclic?
  {
    due <= r.clock(0) < due + h.interval && forall i :: r.clock(i) <= due + h.interval
  }

  /** And nobody cancels it. */
  ghost predicate Smooth(r: Round, h: Handler, due: int)
    requires h.Cyclic?
  {
    r.Valid() && OnTime(r, h, due) && !Cancels(r.Outcome().fired, h)
  }

  lemma {:induction false} OnTimeRound(r: Round, x: Item)
    requires x.handler.Cyclic? && Smooth(r, x.handler, x.due) && x in r.items
    ensures x in r.Outcome().fired && Item(x.due + x.handler.interval, x.handler) in r.Outcome().items
  {
    var c, now := r.Outcome(), r.clock(0);
    DueRuns(r.items, r.clock, r.goesOn, 1, now, x);
    CyclicRearmed(r.items, r.clock, r.goesOn, 1, now, x);
    var y, i :| y in c.armed && 1 <= i < c.k && y.handler == x.handler && DueAgain(x.due, x.handler.interval, r.clock(i), y.due);
    assert y == Item(x.due + x.handler.interval, x.handler);
    Balance(r.items, r.clock, r.goesOn, 1, now);
    FiredInOrder(r.items, r.clock, r.goesOn, 1, now, if r.items != [] && r.items[0].due < now then r.items[0].due else now);
    assert y in multiset(r.items) + c.armed;
    if y in c.cancelled { CancelledByWork(r.items, r.clock, r.goesOn, 1, now, y); }
  }

  /** One check after the other; in between timers may be armed, and others than `h` cancelled. */
  ghost predicate Rounds(rs: seq<Round>, h: Handler) {
    forall j {:trigger RoundAt(rs, h, j)} :: 0 <= j < |rs| ==> RoundAt(rs, h, j)
  }

  ghost predicate RoundAt(rs: seq<Round>, h: Handler, j: nat)
    requires j < |rs|
  {
    && rs[j].Valid()
    && (0 < j && rs[j - 1].Valid() ==> forall x :: x in rs[j - 1].Outcome().items && x.handler == h ==> x in rs[j].items)
  }

  /** A cyclic timer `j` intervals later. */
  function Later(x: Item, j: nat): Item
    requires x.handler.Cyclic?
  {
    if j == 0 then x else Item(Later(x, j - 1).due + x.handler.interval, x.handler)
  }

  lemma {:induction false} LaterIs(x: Item, j: nat)
    requires x.handler.Cyclic?
    ensures Later(x, j) == Item(x.due + j * x.handler.interval, x.handler)
  {
    if 0 < j {
      LaterIs(x, j - 1);
      assert j * x.handler.interval == (j - 1) * x.handler.interval + x.handler.interval;
    }
  }

  ghost predicate AllOnTime(rs: seq<Round>, x: Item, n: nat)
    requires x.handler.Cyclic? && n <= |rs|
  {
    forall i {:trigger OnTimeAt(rs, x, i)} :: 0 <= i < n ==> OnTimeAt(rs, x, i)
  }

  ghost predicate OnTimeAt(rs: seq<Round>, x: Item, i: nat)
    requires x.handler.Cyclic? && i < |rs|
  {
    Smooth(rs[i], x.handler, Later(x, i).due)
  }

  /** As long as checks are on time a cyclic timer does not drift: in round `j` it runs at its first
      due time and `j` intervals. */
  lemma {:induction false} NoDrift(rs: seq<Round>, x: Item, j: nat)
    requires x.handler.Cyclic? && j < |rs| && Rounds(rs, x.handler) && x in rs[0].items && AllOnTime(rs, x, j + 1)
    ensures rs[j].Valid() && Later(x, j).handler == x.handler && Later(x, j) in rs[j].items && Later(x, j) in rs[j].Outcome().fired
    decreases j
  {
    assert OnTimeAt(rs, x, j);
    if 0 < j {
      NoDrift(rs, x, j - 1);
      NextRound(rs, x, j - 1);
    } else {
      OnTimeRound(rs[0], x);
    }
  }

  lemma {:induction false} NextRound(rs: seq<Round>, x: Item, j: nat)
    requires x.handler.Cyclic? && j + 1 < |rs| && RoundAt(rs, x.handler, j + 1) && OnTimeAt(rs, x, j) && OnTimeAt(rs, x, j + 1)
    requires Later(x, j).handler == x.handler && Later(x, j) in rs[j].items
    ensures Later(x, j + 1).handler == x.handler && Later(x, j + 1) in rs[j + 1].items && Later(x, j + 1) in rs[j + 1].Outcome().fired
  {
    var y, z := Later(x, j), Later(x, j + 1);
    OnTimeRound(rs[j], y);
    assert z == Item(y.due + y.handler.interval, y.handler);
    OnTimeRound(rs[j + 1], z);
  }
}
