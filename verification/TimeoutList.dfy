/** Timers in unbounded time. */
module TimeoutList {
  // How lwip/core/timeouts.c keeps them with 32-bit clocks.

  import opened Bytes

  /** LWIP_MAX_TIMEOUT + 1, and the longest time that sys_timeout admits. */
  const HALF: int := 0x8000_0000
  const LONGEST: nat := 0x3FFF_FFFF

  const TCP_INTERVAL: nat := 250

  /** Handlers: a cyclic timer that re-arms itself, the TCP timer that starts again from the
      current time, and one-shot timers.  `work` is what a handler does to other timers. */
  datatype Handler =
    | Cyclic(interval: nat, work: seq<Action>)
    | Tcp
    | OneShot(id: nat, work: seq<Action>)

  datatype Action = Arm(msecs: nat, handler: Handler) | Cancel(handler: Handler)

  /** struct sys_timeo */
  datatype Timeout = Timeout(time: u32, handler: Handler)

  /** The same with a time that counts on. */
  datatype Item = Item(due: int, handler: Handler)

  /** Cyclic timers have a positive interval, and no time is too long. */
  predicate Proper(h: Handler) {
    match h
    case Cyclic(interval, work) => 0 < interval <= LONGEST && ProperWork(work)
    case Tcp => true
    case OneShot(_, work) => ProperWork(work)
  }

  predicate ProperWork(work: seq<Action>) {
    work == [] || (ProperAction(work[0]) && ProperWork(work[1..]))
  }

  predicate ProperAction(a: Action) {
    match a
    case Arm(msecs, handler) => msecs <= LONGEST && Proper(handler)
    case Cancel(handler) => true
  }

  // ---- 32-bit time --------------------------------------------------------------------------

  /** TIME_LESS_THAN */
  predicate TimeLessThan(t: u32, u: u32) {
    Low32(t - u) > 0x7FFF_FFFF
  }

  /** In a window shorter than 2^31 the comparison is that of unbounded time. */
  lemma {:induction false} TimeCompares(x: int, y: int)
    requires -HALF < x - y < HALF
    ensures TimeLessThan(Low32(x), Low32(y)) <==> x < y
    ensures y <= x ==> Low32(Low32(x) - Low32(y)) == x - y
  {
    Low32Minus(x, y);
    assert x < y ==> Low32(x - y) == x - y + 0x1_0000_0000;
  }

  // ---- the list in unbounded time -----------------------------------------------------------------

  ghost predicate Sorted(items: seq<Item>) {
    forall i, j :: 0 <= i < j < |items| ==> items[i].due <= items[j].due
  }

  /** Insertion behind all timers that are not due later: ties are first in, first out. */
  function Insert(items: seq<Item>, x: Item): seq<Item> {
    if items == [] || x.due < items[0].due then [x] + items else [items[0]] + Insert(items[1..], x)
  }

  /** The place where `x` comes. */
  function PlaceOf(items: seq<Item>, x: Item): (k: nat)
    ensures k <= |items|
  {
    if items == [] || x.due < items[0].due then 0 else 1 + PlaceOf(items[1..], x)
  }

  lemma {:induction false} InsertIs(items: seq<Item>, x: Item)
    requires Sorted(items)
    ensures var k := PlaceOf(items, x);
            && Insert(items, x) == items[..k] + [x] + items[k..]
            && (forall i :: 0 <= i < k ==> items[i].due <= x.due)
            && (forall i :: k <= i < |items| ==> x.due < items[i].due)
    decreases |items|
  {
    if items != [] && items[0].due <= x.due {
      InsertIs(items[1..], x);
      var k := PlaceOf(items[1..], x);
      InsertBehindFirst(items, x, k);
      forall i | k + 1 <= i < |items| ensures x.due < items[i].due { assert items[i] == items[1..][i - 1]; }
      forall i | 0 < i < k + 1 ensures items[i].due <= x.due { assert items[i] == items[1..][i - 1]; }
    }
  }

  lemma {:induction false} InsertBehindFirst(items: seq<Item>, x: Item, k: nat)
    requires k < |items|
    ensures [items[0]] + (items[1..][..k] + [x] + items[1..][k..]) == items[..k + 1] + [x] + items[k + 1..]
  {
    assert items[..k + 1] == [items[0]] + items[1..][..k] && items[k + 1..] == items[1..][k..];
  }

  lemma {:induction false} InsertSorted(items: seq<Item>, x: Item)
    requires Sorted(items)
    ensures Sorted(Insert(items, x)) && multiset(Insert(items, x)) == multiset(items) + multiset{x}
  {
    InsertIs(items, x);
    var k := PlaceOf(items, x);
    assert items == items[..k] + items[k..];
  }

  /** The first timer with this handler. */
  function IndexOf(items: seq<Item>, h: Handler): (k: nat)
    ensures k <= |items|
    ensures forall i :: 0 <= i < k ==> items[i].handler != h
    ensures k < |items| ==> items[k].handler == h
  {
    if items == [] || items[0].handler == h then 0 else
      var k := IndexOf(items[1..], h);
      assert forall i :: 0 < i < k + 1 ==> items[i] == items[1..][i - 1];
      k + 1
  }

  /** sys_untimeout */
  function Remove(items: seq<Item>, h: Handler): seq<Item> {
    var k := IndexOf(items, h);
    if k < |items| then items[..k] + items[k + 1..] else items
  }

  /** The list as it is stored; all times lie in a window that starts at `lo`. */
  ghost predicate Stores(list: seq<Timeout>, items: seq<Item>, lo: int) {
    && |list| == |items| && Sorted(items)
    && (forall i :: 0 <= i < |items| ==> list[i] == Timeout(Low32(items[i].due), items[i].handler))
    && (forall i :: 0 <= i < |items| ==> InWindow(items[i], lo))
  }

  ghost predicate InWindow(x: Item, lo: int) {
    lo <= x.due < lo + HALF && Proper(x.handler)
  }

  lemma {:induction false} StoresInsert(list: seq<Timeout>, items: seq<Item>, lo: int, x: Item, k: nat)
    requires Stores(list, items, lo) && InWindow(x, lo) && k == PlaceOf(items, x)
    ensures Stores(list[..k] + [Timeout(Low32(x.due), x.handler)] + list[k..], Insert(items, x), lo)
  {
    InsertIs(items, x);
    InsertSorted(items, x);
    var items' := items[..k] + [x] + items[k..];
    forall i | 0 <= i < |items'| ensures InWindow(items'[i], lo) {
      if i < k { assert InWindow(items[i], lo); } else if k < i { assert InWindow(items[i - 1], lo); }
    }
  }

  lemma {:induction false} StoresWithout(list: seq<Timeout>, items: seq<Item>, lo: int, k: nat)
    requires Stores(list, items, lo) && k < |items|
    ensures Stores(list[..k] + list[k + 1..], items[..k] + items[k + 1..], lo)
  {
    var items' := items[..k] + items[k + 1..];
    forall i | 0 <= i < |items'| ensures InWindow(items'[i], lo) {
      assert InWindow(items[if i < k then i else i + 1], lo);
    }
  }

  lemma {:induction false} StoresTail(list: seq<Timeout>, items: seq<Item>, lo: int)
    requires Stores(list, items, lo) && items != []
    ensures Stores(list[1..], items[1..], lo)
  {
    forall i | 0 <= i < |items[1..]| ensures InWindow(items[1..][i], lo) { assert InWindow(items[i + 1], lo); }
  }

  lemma {:induction false} PlaceIs(items: seq<Item>, x: Item, k: nat)
    requires Sorted(items) && k <= |items| && (0 < k ==> items[k - 1].due <= x.due) && (k < |items| ==> x.due < items[k].due)
    ensures k == PlaceOf(items, x)
  {
    InsertIs(items, x);
    var j := PlaceOf(items, x);
    var at, before := if j < |items| then items[j] else x, if 0 < j then items[j - 1] else x;
  }

  lemma {:induction false} IndexIs(items: seq<Item>, h: Handler, k: nat)
    requires k <= |items| && (forall i :: 0 <= i < k ==> items[i].handler != h) && (k < |items| ==> items[k].handler == h)
    ensures k == IndexOf(items, h)
  {
    var j := IndexOf(items, h);
    var at := if j < |items| then items[j].handler else h;
  }

  // ---- rebasing --------------------------------------------------------------------------------------

  /** `t->time = (t->time - base) + now` */
  function Rebased(t: Timeout, base: u32, now: u32): Timeout {
    t.(time := Low32(Low32(t.time - base) + now))
  }

  function Shifted(items: seq<Item>, d: int): (r: seq<Item>)
    ensures |r| == |items| && forall i :: 0 <= i < |items| ==> r[i] == Item(items[i].due + d, items[i].handler)
  {
    seq(|items|, i requires 0 <= i < |items| => Item(items[i].due + d, items[i].handler))
  }

  lemma {:induction false} RestartStores(was: seq<Timeout>, list: seq<Timeout>, items: seq<Item>, items': seq<Item>, lo: int, now: nat)
    requires Stores(was, items, lo) && items != [] && items' == Shifted(items, now - items[0].due)
    requires |list| == |was| && forall i :: 0 <= i < |was| ==> list[i] == Rebased(was[i], was[0].time, Low32(now))
    ensures Stores(list, items', now)
  {
    forall i | 0 <= i < |items'|
      ensures list[i] == Timeout(Low32(items'[i].due), items'[i].handler) && InWindow(items'[i], now)
    {
      assert InWindow(items[i], lo) && InWindow(items[0], lo);
      RebasedIs(items[i].due, items[0].due, now);
    }
  }

  lemma {:induction false} RebasedIs(due: int, first: int, now: int)
    ensures Low32(Low32(Low32(due) - Low32(first)) + Low32(now)) == Low32(due - first + now)
  {
    Low32Minus(due, first);
    Low32Plus(due - first, Low32(now));
    Low32Plus(now, due - first);
  }
}
