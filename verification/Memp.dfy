/** lwip/core/memp.c: a pool of elements of one size, with the free ones in a linked list. */
module Memp {
  import opened Lists
  import opened MempSanity

  /** Freeing what is free already makes a cycle; freeing anything else does not. */
  lemma {:induction false} PushEnds(next: map<Ptr, Ptr>, tab: Ptr, free: seq<Ptr>, p: Ptr)
    requires IsList(next, tab, free) && p != NULL && p in next
    ensures p !in free ==> IsList(next[p := tab], p, [p] + free)
    ensures Ends(next[p := tab], p) <==> p !in free
  {
    var next' := next[p := tab];
    if p in free {
      var i :| 0 <= i < |free| && free[i] == p;
      if Ends(next', p) {
        var ps :| IsList(next', p, ps);
        ListAt(next', p, ps, 0);
        ListDistinct(next', p, ps);
        BackTo(next, next', tab, free, i, p, ps[1..]);
      }
    } else {
      ListNodes(next, tab, free);
      ListFrame(next, next', tab, free);
      assert ([p] + free)[1..] == free;
      assert IsList(next', p, [p] + free);
    }
  }

  /** Sanity looks at listed elements only, which are linked among themselves. */
  lemma {:induction false} ListClosed(next: map<Ptr, Ptr>, p: Ptr, ps: seq<Ptr>)
    requires IsList(next, p, ps)
    ensures forall x :: x in ps ==> x in next && (next[x] == NULL || next[x] in ps)
  {
    forall x | x in ps ensures x in next && (next[x] == NULL || next[x] in ps) {
      var i :| 0 <= i < |ps| && ps[i] == x;
      ListAt(next, p, ps, i);
    }
  }

  /** Up to the first changed node two walks are the same. */
  lemma {:induction false} BackTo(next: map<Ptr, Ptr>, next': map<Ptr, Ptr>, q: Ptr, ps: seq<Ptr>, i: nat, p: Ptr, qs: seq<Ptr>)
    requires IsList(next, q, ps) && IsList(next', q, qs) && i < |ps| && ps[i] == p
    requires forall x :: x in next && x != p ==> x in next' && next'[x] == next[x]
    requires p != NULL
    ensures exists j :: 0 <= j <= i && j < |qs| && qs[j] == p
    decreases i
  {
    if q == p {
      assert qs[0] == p;
    } else {
      BackTo(next, next', next[q], ps[1..], i - 1, p, qs[1..]);
      var j :| 0 <= j <= i - 1 && j < |qs[1..]| && qs[1..][j] == p;
      assert qs[j + 1] == p;
    }
  }

  /** Where element `i` of a pool is. */
  function Address(base: Ptr, size: nat, i: nat): Ptr {
    if i == 0 then base else Address(base, size, i - 1) + size
  }

  /** The free list of a new pool: the last element first. */
  function Layout(base: Ptr, size: nat, n: nat): seq<Ptr> {
    if n == 0 then [] else [Address(base, size, n - 1)] + Layout(base, size, n - 1)
  }

  lemma {:induction false} LayoutBelow(base: Ptr, size: nat, n: nat)
    requires 0 < size && 0 < base
    ensures 0 < Address(base, size, n) && |Layout(base, size, n)| == n
    ensures forall x :: x in Layout(base, size, n) ==> x < Address(base, size, n)
    decreases n
  {
    if 0 < n { LayoutBelow(base, size, n - 1); }
  }

  class Pool {
    /** The `next` fields of all elements, and the head of the list of free ones. */
    var next: map<Ptr, Ptr>
    var tab: Ptr

    /** The free elements, first one first. */
    ghost var free: seq<Ptr>

    /** The elements in use. */
    ghost var used: set<Ptr>

    ghost predicate Valid()
      reads this
    {
      && NULL !in next && IsList(next, tab, free)
      && (forall x :: x in next <==> x in free || x in used)
      && (forall x :: x in free ==> x !in used)
    }

    /** memp_init_pool: `num` elements of `size` bytes from address `base` on. */
    constructor (base: Ptr, num: nat, size: nat)
      requires 0 < base && 0 < size
      ensures Valid() && used == {} && free == Layout(base, size, num)
    {
      next, tab, free, used := map[], NULL, [], {};
      new;
      var memp, i := base, 0;
      while i < num
        invariant 0 <= i <= num && memp == Address(base, size, i)
        invariant Valid() && used == {} && free == Layout(base, size, i)
      {
        LayoutBelow(base, size, i);
        Add(memp);
        memp := memp + size;
        i := i + 1;
      }
    }

    /** A new element becomes the first free one. */
    method Add(memp: Ptr)
      requires Valid() && memp != NULL && memp !in free && memp !in used
      modifies this
      ensures Valid() && free == [memp] + old(free) && used == old(used)
    {
      ListNodes(next, tab, free);
      ListFrame(next, next[memp := tab], tab, free);
      assert ([memp] + free)[1..] == free;
      next := next[memp := tab];
      tab := memp;
      free := [memp] + free;
    }

    /** do_memp_malloc_pool: takes the first free element, if there is one. */
    method Malloc() returns (memp: Ptr)
      requires Valid()
      modifies this
      ensures Valid() && next == old(next)
      ensures if old(free) == [] then memp == NULL && free == [] && used == old(used)
              else memp == old(free)[0] && memp !in old(used) && free == old(free)[1..] && used == old(used) + {memp}
    {
      ListNodes(next, tab, free);
      ListDistinct(next, tab, free);
      memp := tab;
      if memp != NULL {
        tab := next[memp];
        used := used + {memp};
        free := free[1..];
      }
    }

    /** do_memp_free_pool: the element becomes the first free one, and the list is sane. */
    method Free(memp: Ptr)
      requires Valid() && memp in used
      modifies this
      ensures Valid() && free == [memp] + old(free) && used == old(used) - {memp} && next.Keys == old(next).Keys
    {
      PushEnds(next, tab, free, memp);
      ListNodes(next, tab, free);
      next := next[memp := tab];
      tab := memp;
      free := [memp] + free;
      used := used - {memp};
      ListClosed(next, tab, free);
      var sane := Sanity(next, tab, set x | x in free);
      assert sane;
    }

    /** The owner of an element writes to it, also where its link was. */
    method WriteElement(memp: Ptr, value: Ptr)
      requires Valid() && memp in used
      modifies `next
      ensures Valid() && next == old(next)[memp := value]
    {
      ListFrame(next, next[memp := value], tab, free) by { ListNodes(next, tab, free); }
      next := next[memp := value];
    }

    /** Free and used elements are all there are, and no free one is listed twice. */
    lemma {:induction false} NoneLost(x: Ptr)
      requires Valid()
      ensures x in next <==> (x in free) != (x in used)
      ensures forall i, j :: 0 <= i < j < |free| ==> free[i] != free[j]
    {
      ListDistinct(next, tab, free);
    }
  }
}
