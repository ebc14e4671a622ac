/** lwip/core/timeouts.c: the list of timers.

    The list keeps 32-bit times; the timers that it stands for have unbounded ones, which are
    ghost, and what is proved about them is in `TimeoutList` and `TimerRun`.  What a handler arms and cancels
    while it runs is a script that comes with the timer. */
module Timeouts {
  import opened Bytes
  import opened TimeoutList
  import opened TimerRun

  const SLEEPTIME_INFINITE: u32 := 0xFFFF_FFFF

  /** Readings of the clock and new due times lie in a window of less than 2^31 ms from `lo` on. */
  ghost predicate Ticks(clock: nat -> nat, now: nat, lo: int) {
    forall i :: now <= clock(i) && clock(i) + LONGEST < lo + HALF && lo <= clock(i)
  }

  class Timeouts {
    var list: seq<Timeout>

    /** current_timeout_due_time */
    var currentDue: u32

    /** The same list in unbounded time. */
    ghost var items: seq<Item>

    /** The timers whose handlers were called, the latest last. */
    ghost var ran: seq<Item>

    constructor ()
      ensures list == [] && items == [] && ran == []
    {
      list, items, currentDue, ran := [], [], 0, [];
    }

    /** sys_timeout_abs */
    method TimeoutAbs(absTime: u32, handler: Handler, ghost x: Item, ghost lo: int)
      requires Stores(list, items, lo) && InWindow(x, lo) && absTime == Low32(x.due) && handler == x.handler
      modifies `list, `items
      ensures Stores(list, items, lo) && items == Insert(old(items), x)
    {
      ghost var due := x.due;
      var timeout := Timeout(absTime, handler);
      if list == [] {
        Link(0, timeout, x, lo);
        return;
      }
      assert InWindow(items[0], lo);
      TimeCompares(due, items[0].due);
      if TimeLessThan(timeout.time, list[0].time) {
        Link(0, timeout, x, lo);
      } else {
        var i := 0;
        while i + 1 < |list| && !TimeLessThan(timeout.time, list[i + 1].time)
          invariant list == old(list) && items == old(items)
          invariant 0 <= i < |list| && items[i].due <= due
        {
          assert InWindow(items[i + 1], lo);
          TimeCompares(due, items[i + 1].due);
          i := i + 1;
        }
        if i + 1 < |list| {
          assert InWindow(items[i + 1], lo);
          TimeCompares(due, items[i + 1].due);
        }
        Link(i + 1, timeout, x, lo);
      }
    }

    /** Links a timer in as the one at place `k`. */
    method Link(k: nat, timeout: Timeout, ghost x: Item, ghost lo: int)
      requires Stores(list, items, lo) && InWindow(x, lo) && timeout == Timeout(Low32(x.due), x.handler)
      requires k <= |items| && (0 < k ==> items[k - 1].due <= x.due) && (k < |items| ==> x.due < items[k].due)
      modifies `list, `items
      ensures Stores(list, items, lo) && items == Insert(old(items), x)
    {
      PlaceIs(items, x, k);
      StoresInsert(list, items, lo, x, k);
      list := list[..k] + [timeout] + list[k..];
      items := Insert(items, x);
    }

    /** sys_timeout; `now` is the time, of which sys_now gives 32 bits. */
    method Start(msecs: nat, handler: Handler, now: nat, ghost x: Item, ghost lo: int)
      requires Stores(list, items, lo) && msecs <= LONGEST && Proper(handler) && lo <= now && now + LONGEST < lo + HALF
      requires x == Item(now + msecs, handler)
      modifies `list, `items
      ensures Stores(list, items, lo) && items == Insert(old(items), x)
    {
      Low32Plus(now, msecs);
      TimeoutAbs(Low32(Low32(now) + msecs), handler, x, lo);
    }

    /** sys_untimeout: removes the first timer with this handler. */
    method Untimeout(handler: Handler, ghost lo: int)
      requires Stores(list, items, lo)
      modifies `list, `items
      ensures Stores(list, items, lo) && items == Remove(old(items), handler)
    {
      var i := 0;
      while i < |list| && list[i].handler != handler
        invariant list == old(list) && items == old(items)
        invariant 0 <= i <= |list| && forall j :: 0 <= j < i ==> items[j].handler != handler
      {
        i := i + 1;
      }
      IndexIs(items, handler, i);
      if i < |list| {
        StoresWithout(list, items, lo, i);
        list := list[..i] + list[i + 1..];
        items := items[..i] + items[i + 1..];
      }
    }

    /** What a handler does to other timers; `k` counts the readings of the clock. */
    method Run(work: seq<Action>, clock: nat -> nat, k0: nat, ghost now: nat, ghost lo: int) returns (k: nat)
      requires Stores(list, items, lo) && ProperWork(work) && Ticks(clock, now, lo)
      modifies `list, `items
      ensures Stores(list, items, lo)
      ensures items == AfterWork(old(items), work, clock, k0).items && k == AfterWork(old(items), work, clock, k0).k
      decreases work
    {
      k := k0;
      if work != [] {
        k := Act(work[0], clock, k, now, lo);
        k := Run(work[1..], clock, k, now, lo);
      }
    }

    method Act(a: Action, clock: nat -> nat, k0: nat, ghost now: nat, ghost lo: int) returns (k: nat)
      requires Stores(list, items, lo) && ProperAction(a) && Ticks(clock, now, lo)
      modifies `list, `items
      ensures Stores(list, items, lo)
      ensures items == AfterAction(old(items), a, clock, k0).items && k == AfterAction(old(items), a, clock, k0).k
    {
      k := k0;
      match a {
        case Arm(msecs, handler) =>
          assert now <= clock(k);
          Start(msecs, handler, clock(k), Item(clock(k) + msecs, handler), lo);
          k := k + 1;
        case Cancel(handler) =>
          Untimeout(handler, lo);
      }
    }

    /** The end of lwip_cyclic_timer: it re-arms itself one interval after it was due, or after now
        if that is past. */
    method RearmCyclic(interval: nat, handler: Handler, clock: nat, ghost due: int, ghost lo: int)
      requires Stores(list, items, lo) && Proper(handler) && 0 < interval <= LONGEST
      requires lo <= due <= clock && clock + LONGEST < lo + HALF && currentDue == Low32(due)
      modifies `list, `items
      ensures Stores(list, items, lo) && items == Insert(old(items), Item(NextDue(due, interval, clock), handler))
    {
      Low32Plus(due, interval);
      Low32Plus(clock, interval);
      TimeCompares(due + interval, clock);
      var nextTime := Low32(currentDue + interval);
      if TimeLessThan(nextTime, Low32(clock)) {
        TimeoutAbs(Low32(Low32(clock) + interval), handler, Item(clock + interval, handler), lo);
      } else {
        TimeoutAbs(nextTime, handler, Item(due + interval, handler), lo);
      }
    }

    /** The handler of a timer that is due is called.  `goesOn` tells whether the TCP timer is still
        needed. */
    method Fire(handler: Handler, clock: nat -> nat, goesOn: nat -> bool, k0: nat, ghost due: int, ghost now: nat, ghost lo: int) returns (k: nat)
      requires Stores(list, items, lo) && Proper(handler) && Ticks(clock, now, lo) && lo <= due <= now && currentDue == Low32(due)
      modifies `list, `items, `ran
      ensures Stores(list, items, lo) && ran == old(ran) + [Item(due, handler)]
      ensures var r := AfterFiring(old(items), Item(due, handler), clock, goesOn, k0);
              items == r.items && k == r.k
    {
      k := k0;
      match handler {
        case OneShot(_, work) => k := Run(work, clock, k, now, lo);
        case Cyclic(interval, work) =>
          k := Run(work, clock, k, now, lo);
          assert now <= clock(k);
          RearmCyclic(interval, handler, clock(k), due, lo);
          k := k + 1;
        case Tcp => if goesOn(k) { k := Act(Arm(TCP_INTERVAL, Tcp), clock, k, now, lo); }
      }
      ran := ran + [Item(due, handler)];
    }

    /** The first timer is taken off the list and runs. */
    method FireFirst(clock: nat -> nat, goesOn: nat -> bool, k0: nat, ghost now: nat, ghost lo: int) returns (k: nat)
      requires Stores(list, items, lo) && Ticks(clock, now, lo) && items != [] && items[0].due <= now
      modifies this
      ensures Stores(list, items, lo) && ran == old(ran) + [old(items)[0]]
      ensures var r := AfterFiring(old(items)[1..], old(items)[0], clock, goesOn, k0);
              items == r.items && k == r.k
    {
      ghost var x := items[0];
      assert InWindow(x, lo);
      StoresTail(list, items, lo);
      var timeout := list[0];
      list := list[1..];
      items := items[1..];
      currentDue := timeout.time;
      k := Fire(timeout.handler, clock, goesOn, k0, x.due, now, lo);
    }

    /** sys_check_timeouts: `clock(0)` is the time it looks at.  It ends although timers re-arm
        themselves. */
    method CheckTimeouts(clock: nat -> nat, goesOn: nat -> bool, ghost lo: int)
      requires Stores(list, items, lo) && Ticks(clock, clock(0), lo)
      modifies this
      ensures Stores(list, items, lo) && Timers(old(items)) && Forward(clock, clock(0))
      ensures var c := AfterCheck(old(items), clock, goesOn, 1, clock(0));
              items == c.items && ran == old(ran) + c.fired
    {
      StoresTimers(list, items, lo);
      ghost var c := AfterCheck(items, clock, goesOn, 1, clock(0));
      var now, k := Low32(clock(0)), 1;
      while list != [] && !TimeLessThan(now, list[0].time)
        invariant Stores(list, items, lo) && Ticks(clock, clock(0), lo)
        invariant Continues(c, old(ran), items, ran, clock, goesOn, k, clock(0))
        decreases TotalWeight(items, clock(0))
      {
        assert InWindow(items[0], lo);
        TimeCompares(clock(0), items[0].due);
        FiringGoesOn(items, clock, goesOn, k, clock(0));
        ContinuesNext(c, old(ran), items, ran, clock, goesOn, k, clock(0));
        k := FireFirst(clock, goesOn, k, clock(0), lo);
      }
      if list != [] {
        assert InWindow(items[0], lo);
        TimeCompares(clock(0), items[0].due);
      }
    }

    /** sys_restart_timeouts: the first timer is due now, and the gaps are kept. */
    method Restart(now: nat, ghost lo: int)
      requires Stores(list, items, lo)
      modifies `list, `items
      ensures |items| == |old(items)| && forall i :: 0 <= i < |items| ==> items[i] == Item(old(items)[i].due - old(items)[0].due + now, old(items)[i].handler)
      ensures Stores(list, items, now)
    {
      if list == [] {
        assert items == [];
        return;
      }
      var base, was := list[0].time, list;
      ghost var whole := items;
      var i := 0;
      while i < |list|
        invariant 0 <= i <= |list| == |was| && items == whole
        invariant forall j :: 0 <= j < i ==> list[j] == Rebased(was[j], base, Low32(now))
        invariant list[i..] == was[i..]
      {
        assert list[i..][0] == was[i..][0];
        list := list[..i] + [Rebased(list[i], base, Low32(now))] + list[i + 1..];
        i := i + 1;
      }
      items := Shifted(items, now - items[0].due);
      RestartStores(was, list, whole, items, lo, now);
    }

    /** sys_timeouts_sleeptime */
    method Sleeptime(now: nat, ghost lo: int) returns (ms: u32)
      requires Stores(list, items, lo) && lo <= now < lo + HALF
      ensures ms == if items == [] then SLEEPTIME_INFINITE else if items[0].due < now then 0 else items[0].due - now
    {
      if list == [] { return SLEEPTIME_INFINITE; }
      assert InWindow(items[0], lo);
      TimeCompares(items[0].due, now);
      if TimeLessThan(list[0].time, Low32(now)) { return 0; }
      ms := Low32(list[0].time - Low32(now));
      assert ms <= 0x7FFF_FFFF;
    }
  }
}
