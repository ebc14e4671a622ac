/** native/queues.c: a ring of 256 packets that drops the oldest one when it is full. */
module PbufQueue {
  import opened Lists

  const LENGTH: nat := 256

  /** Place `i` behind `head` in the ring. */
  function Slot(head: nat, i: nat): nat {
    (head + i) % LENGTH
  }

  lemma {:induction false} SlotIs(head: nat, i: nat)
    requires head < LENGTH && i <= LENGTH
    ensures Slot(head, i) == if head + i < LENGTH then head + i else head + i - LENGTH
  {
  }

  /** How many packets there are. */
  function Count(head: nat, tail: nat, full: bool): nat
    requires head < LENGTH && tail < LENGTH
  {
    if full then LENGTH else if head <= tail then tail - head else tail + LENGTH - head
  }

  /** The `n` packets from `head` on. */
  function Window(d: seq<Ptr>, head: nat, n: nat): (s: seq<Ptr>)
    requires |d| == LENGTH && head < LENGTH && n <= LENGTH
    ensures |s| == n
  {
    seq(n, i requires 0 <= i < n => d[Slot(head, i)])
  }

  /** Slots outside hold NULL, so that nothing is deallocated twice. */
  ghost predicate NullBehind(d: seq<Ptr>, head: nat, n: nat)
    requires |d| == LENGTH && head < LENGTH
  {
    forall i {:trigger Slot(head, i)} :: n <= i < LENGTH ==> d[Slot(head, i)] == NULL
  }

  lemma {:induction false} PushWindow(d: seq<Ptr>, head: nat, n: nat, p: Ptr)
    requires |d| == LENGTH && head < LENGTH && n < LENGTH && NullBehind(d, head, n)
    ensures var d' := d[Slot(head, n) := p];
            d[Slot(head, n)] == NULL && Window(d', head, n + 1) == Window(d, head, n) + [p] && NullBehind(d', head, n + 1)
  {
    var d' := d[Slot(head, n) := p];
    SlotIs(head, n);
    forall i | 0 <= i < LENGTH && i != n ensures Slot(head, i) != Slot(head, n) { SlotIs(head, i); }
  }

  lemma {:induction false} NextSlot(head: nat, i: nat)
    requires head < LENGTH && i < LENGTH
    ensures Slot(Slot(head, 1), i) == Slot(head, i + 1)
  {
    SlotIs(head, 1);
    SlotIs(Slot(head, 1), i);
    SlotIs(head, i + 1);
  }

  lemma {:induction false} PopWindow(d: seq<Ptr>, head: nat, n: nat, p: Ptr)
    requires |d| == LENGTH && head < LENGTH && 0 < n <= LENGTH
    ensures d[head] == Window(d, head, n)[0]
    ensures var d' := d[head := p];
            Window(d', Slot(head, 1), n - 1) == Window(d, head, n)[1..]
  {
    SlotIs(head, 0);
    SlotIs(head, 1);
    var d', s, s' := d[head := p], Window(d, head, n), Window(d[head := p], Slot(head, 1), n - 1);
    forall i | 0 <= i < n - 1 ensures s'[i] == s[1..][i] {
      NextSlot(head, i);
      SlotIs(head, i + 1);
    }
  }

  lemma {:induction false} PopNull(d: seq<Ptr>, head: nat, n: nat)
    requires |d| == LENGTH && head < LENGTH && 0 < n <= LENGTH && NullBehind(d, head, n)
    ensures NullBehind(d[head := NULL], Slot(head, 1), n - 1)
  {
    SlotIs(head, 1);
    forall i | n - 1 <= i < LENGTH ensures d[head := NULL][Slot(Slot(head, 1), i)] == NULL {
      NextSlot(head, i);
      SlotIs(head, i + 1);
    }
  }

  /** Appending to a full ring overwrites the oldest packet. */
  lemma {:induction false} PushFull(d: seq<Ptr>, head: nat, p: Ptr)
    requires |d| == LENGTH && head < LENGTH
    ensures d[head] == Window(d, head, LENGTH)[0]
    ensures var d' := d[head := p];
            Window(d', Slot(head, 1), LENGTH) == Window(d, head, LENGTH)[1..] + [p]
  {
    var d', s := d[head := p], Window(d, head, LENGTH);
    PopWindow(d, head, LENGTH, p);
    SlotIs(head, 1);
    var s' := Window(d', Slot(head, 1), LENGTH);
    NextSlot(head, LENGTH - 1);
    SlotIs(head, LENGTH);
    assert s'[LENGTH - 1] == p;
    assert s'[..LENGTH - 1] == Window(d', Slot(head, 1), LENGTH - 1);
    assert s' == s'[..LENGTH - 1] + [s'[LENGTH - 1]];
  }

  /** The last `LENGTH` elements. */
  function Newest(s: seq<Ptr>): (r: seq<Ptr>) {
    if |s| <= LENGTH then s else s[|s| - LENGTH..]
  }

  /** The elements before these. */
  function Dropped(s: seq<Ptr>): seq<Ptr> {
    if |s| <= LENGTH then [] else s[..|s| - LENGTH]
  }

  function NonNull(s: seq<Ptr>): seq<Ptr> {
    if s == [] then [] else NonNull(s[..|s| - 1]) + if s[|s| - 1] == NULL then [] else [s[|s| - 1]]
  }

  lemma {:induction false} DroppedGrows(s: seq<Ptr>, p: Ptr, f: Ptr)
    requires f == if |Newest(s)| == LENGTH then Newest(s)[0] else NULL
    ensures NonNull(Dropped(s + [p])) == NonNull(Dropped(s)) + if f == NULL then [] else [f]
  {
    if LENGTH <= |s| {
      var d := Dropped(s + [p]);
      assert d[..|d| - 1] == Dropped(s) && d[|d| - 1] == f;
    }
  }

  class Queue {
    const data: array<Ptr>
    var head: nat
    var tail: nat
    var full: bool

    constructor ()
      ensures Valid() && Contents() == [] && fresh(data)
    {
      data := new Ptr[LENGTH](_ => NULL);
      head, tail, full := 0, 0, false;
    }

    ghost predicate Valid()
      reads this, data
    {
      && data.Length == LENGTH && head < LENGTH && tail < LENGTH && (full ==> head == tail)
      && NullBehind(data[..], head, Count(head, tail, full))
    }

    /** The packets, oldest first. */
    ghost function Contents(): (s: seq<Ptr>)
      requires Valid()
      reads this, data
      ensures |s| <= LENGTH
    {
      Window(data[..], head, Count(head, tail, full))
    }

    /** pbuf_queue_length */
    method Size() returns (n: nat)
      requires Valid()
      ensures n == |Contents()|
    {
      SlotIs(tail, LENGTH - head);
      n := (tail + LENGTH - head) % LENGTH;
      if n == 0 && full { return LENGTH; }
    }

    /** One round of pbuf_queue_append; `freed` is the packet that is deallocated. */
    method Push(p: Ptr) returns (freed: Ptr)
      requires Valid()
      modifies this, data
      ensures Valid() && Contents() == Newest(old(Contents()) + [p])
      ensures freed == if |old(Contents())| == LENGTH then old(Contents())[0] else NULL
    {
      ghost var n, d := Count(head, tail, full), data[..];
      SlotIs(head, n);
      SlotIs(tail, 1);
      if n < LENGTH { PushWindow(d, head, n, p); } else { PushFull(d, head, p); }
      freed := data[tail];
      data[tail] := p;
      assert data[..] == d[tail := p];
      tail := (tail + 1) % LENGTH;
      if full { head := tail; }
      full := head == tail;
    }

    /** One round of pbuf_queue_pop. */
    method PopOne() returns (p: Ptr)
      requires Valid() && Contents() != []
      modifies this, data
      ensures Valid() && p == old(Contents())[0] && Contents() == old(Contents())[1..]
    {
      ghost var n, d := Count(head, tail, full), data[..];
      PopWindow(d, head, n, NULL);
      PopNull(d, head, n);
      SlotIs(head, 1);
      p := data[head];
      data[head] := NULL;
      assert data[..] == d[head := NULL];
      head := (head + 1) % LENGTH;
      full := false;
    }

    /** pbuf_queue_append */
    method Append(ps: seq<Ptr>) returns (freed: seq<Ptr>)
      requires Valid()
      modifies this, data
      ensures Valid() && Contents() == Newest(old(Contents()) + ps) && freed == NonNull(Dropped(old(Contents()) + ps))
    {
      ghost var s := Contents();
      freed := [];
      assert Newest(s) == s && Dropped(s) == [];
      var i := 0;
      assert s + ps[..0] == s;
      while i < |ps|
        invariant 0 <= i <= |ps| && Valid() && Contents() == Newest(s + ps[..i]) && freed == NonNull(Dropped(s + ps[..i]))
      {
        var f := Push(ps[i]);
        NewestTwice(s, ps, i);
        DroppedGrows(s + ps[..i], ps[i], f);
        if f != NULL { freed := freed + [f]; }
        i := i + 1;
      }
      assert ps[..|ps|] == ps;
    }

    /** pbuf_queue_pop: up to `size` packets, oldest first. */
    method Pop(size: nat) returns (out: seq<Ptr>)
      requires Valid()
      modifies this, data
      ensures Valid() && out + Contents() == old(Contents()) && |out| <= size
      ensures |out| < size ==> Contents() == []
    {
      ghost var s := Contents();
      out := [];
      while |out| < size && !(head == tail && !full)
        invariant Valid() && out + Contents() == s && |out| <= size
        decreases size - |out|
      {
        ghost var before := Contents();
        var p := PopOne();
        assert out + before == (out + [p]) + before[1..];
        out := out + [p];
      }
    }
  }

  lemma {:induction false} NewestTwice(s: seq<Ptr>, ps: seq<Ptr>, i: nat)
    requires i < |ps|
    ensures Newest(Newest(s + ps[..i]) + [ps[i]]) == Newest(s + ps[..i + 1]) && s + ps[..i + 1] == (s + ps[..i]) + [ps[i]]
  {
    assert s + ps[..i + 1] == (s + ps[..i]) + [ps[i]];
  }
}
