/** The rings and the poll protocol of native/link.c and native/udp.c.

    Packets pass between the threads of the application and the thread of the stack through two
    rings.  Each step is what one thread does under a mutex. */
module Tunnel {
  import opened Lists
  import opened PbufQueue

  /** What became of the packets appended to a ring: `taken[i]` tells whether the i-th was popped or
      dropped; the others are still in the ring. */
  datatype Log = Log(accepted: seq<Ptr>, taken: seq<bool>)

  ghost predicate Records(log: Log, contents: seq<Ptr>) {
    |log.taken| <= |log.accepted| && log.accepted[|log.taken|..] == contents
  }

  /** The packets whose fate is `how`, in the order in which they were appended. */
  function Pick<T>(s: seq<T>, taken: seq<bool>, how: bool): seq<T>
    requires |taken| <= |s|
  {
    if taken == [] then [] else
      var n := |taken| - 1;
      Pick<T>(s, taken[..n], how) + if taken[n] == how then [s[n]] else []
  }

  lemma {:induction false} PickFrame<T>(s: seq<T>, s': seq<T>, taken: seq<bool>, how: bool)
    requires |taken| <= |s| && |taken| <= |s'| && s[..|taken|] == s'[..|taken|]
    ensures Pick<T>(s, taken, how) == Pick<T>(s', taken, how)
    decreases |taken|
  {
    if taken != [] {
      var n := |taken| - 1;
      assert s[n] == s[..|taken|][n] == s'[n];
      assert s[..n] == s[..|taken|][..n] == s'[..n];
      PickFrame<T>(s, s', taken[..n], how);
    }
  }

  /** Every packet has one fate: it was popped, was dropped, or is in the ring. */
  lemma {:induction false} OneFate(log: Log, contents: seq<Ptr>)
    requires Records(log, contents)
    ensures multiset(Pick<Ptr>(log.accepted, log.taken, true)) + multiset(Pick<Ptr>(log.accepted, log.taken, false)) + multiset(contents) == multiset(log.accepted)
  {
    PickBoth(log.accepted, log.taken);
    var n := |log.taken|;
    assert log.accepted == log.accepted[..n] + log.accepted[n..];
  }

  lemma {:induction false} PickBoth(s: seq<Ptr>, taken: seq<bool>)
    requires |taken| <= |s|
    ensures multiset(Pick<Ptr>(s, taken, true)) + multiset(Pick<Ptr>(s, taken, false)) == multiset(s[..|taken|])
    decreases |taken|
  {
    if taken != [] {
      var n := |taken| - 1;
      PickBoth(s, taken[..n]);
      assert s[..n + 1] == s[..n] + [s[n]];
    }
  }

  /** If no packet is appended twice, none is both popped and dropped, and none popped twice. */
  lemma {:induction false} NeverBoth(log: Log, contents: seq<Ptr>, p: Ptr)
    requires Records(log, contents) && multiset(log.accepted)[p] <= 1
    ensures var out, gone := Pick<Ptr>(log.accepted, log.taken, true), Pick<Ptr>(log.accepted, log.taken, false);
            multiset(out)[p] <= 1 && !(p in out && p in gone) && !(p in out && p in contents) && !(p in gone && p in contents)
  {
    OneFate(log, contents);
    var out, gone := Pick<Ptr>(log.accepted, log.taken, true), Pick<Ptr>(log.accepted, log.taken, false);
    AtMostOnce(multiset(out), multiset(gone), multiset(contents), p);
    assert (p in out <==> p in multiset(out)) && (p in gone <==> p in multiset(gone)) && (p in contents <==> p in multiset(contents));
  }

  lemma {:induction false} AtMostOnce(a: multiset<Ptr>, b: multiset<Ptr>, c: multiset<Ptr>, p: Ptr)
    requires (a + b + c)[p] <= 1
    ensures a[p] <= 1 && !(p in a && p in b) && !(p in a && p in c) && !(p in b && p in c)
  {
    assert (a + b + c)[p] == a[p] + b[p] + c[p];
  }

  /** Appending `p` to a ring with `contents`. */
  function Pushed(log: Log, contents: seq<Ptr>, p: Ptr): Log {
    Log(log.accepted + [p], if |contents| == LENGTH then log.taken + [false] else log.taken)
  }

  lemma {:induction false} PushRecords(log: Log, contents: seq<Ptr>, p: Ptr)
    requires Records(log, contents) && |contents| <= LENGTH
    ensures var log' := Pushed(log, contents, p);
            && Records(log', Newest(contents + [p]))
            && Pick<Ptr>(log'.accepted, log'.taken, true) == Pick<Ptr>(log.accepted, log.taken, true)
            && Pick<Ptr>(log'.accepted, log'.taken, false) == Pick<Ptr>(log.accepted, log.taken, false) + if |contents| == LENGTH then [contents[0]] else []
  {
    var log', n := Pushed(log, contents, p), |log.taken|;
    PickFrame<Ptr>(log.accepted, log'.accepted, log.taken, true);
    PickFrame<Ptr>(log.accepted, log'.accepted, log.taken, false);
    if |contents| == LENGTH {
      assert log'.taken[..n] == log.taken && log'.accepted[n] == log.accepted[n..][0];
      assert log'.accepted[n + 1..] == log.accepted[n..][1..] + [p];
      assert (contents + [p])[1..] == contents[1..] + [p];
    } else {
      assert log'.accepted[n..] == log.accepted[n..] + [p];
    }
  }

  /** Popping `out`. */
  function Popped(log: Log, out: seq<Ptr>): Log {
    Log(log.accepted, log.taken + seq(|out|, i => true))
  }

  lemma {:induction false} PickPopped<T>(s: seq<T>, taken: seq<bool>, n: nat)
    requires |taken| + n <= |s|
    ensures var taken' := taken + seq(n, i => true);
            && Pick<T>(s, taken', true) == Pick<T>(s, taken, true) + s[|taken|..|taken| + n]
            && Pick<T>(s, taken', false) == Pick<T>(s, taken, false)
    decreases n
  {
    var taken' := taken + seq(n, i => true);
    if n == 0 {
      assert taken' == taken;
    } else {
      PickPopped<T>(s, taken, n - 1);
      assert taken'[..|taken'| - 1] == taken + seq(n - 1, i => true);
      assert s[|taken|..|taken| + n] == s[|taken|..|taken| + n - 1] + [s[|taken| + n - 1]];
    }
  }

  lemma {:induction false} PopRecords(log: Log, out: seq<Ptr>, rest: seq<Ptr>)
    requires Records(log, out + rest)
    ensures var log' := Popped(log, out);
            && Records(log', rest)
            && Pick<Ptr>(log'.accepted, log'.taken, true) == Pick<Ptr>(log.accepted, log.taken, true) + out
            && Pick<Ptr>(log'.accepted, log'.taken, false) == Pick<Ptr>(log.accepted, log.taken, false)
  {
    var n := |log.taken|;
    PickPopped<Ptr>(log.accepted, log.taken, |out|);
    assert out == log.accepted[n..][..|out|] == log.accepted[n..n + |out|];
    assert rest == log.accepted[n..][|out|..] == log.accepted[n + |out|..];
  }

  /** A reader waits, is told that the tunnel is closed, or gets a packet. */
  datatype Read = Waits | IsClosed | Got(p: Ptr)

  const BATCH: nat := 32

  class Tunnel {
    const rx: Queue
    const tx: Queue
    var txPolling: bool
    var closed: bool

    /** Poll callbacks that the stack's thread has still to run. */
    ghost var pending: nat

    /** The packets its last callback has popped and not passed on yet, and those passed on. */
    var batch: seq<Ptr>
    ghost var delivered: seq<Ptr>

    ghost var rxLog: Log
    ghost var txLog: Log

    ghost predicate Valid()
      reads this, rx, tx, rx.data, tx.data
    {
      && rx.Valid() && tx.Valid() && rx != tx && rx.data != tx.data
      && pending <= 1 && (txPolling <==> pending == 1)
      && Records(rxLog, rx.Contents()) && Records(txLog, tx.Contents())
      && Pick<Ptr>(txLog.accepted, txLog.taken, true) == delivered + batch
    }

    constructor ()
      ensures Valid() && rxLog == txLog == Log([], []) && delivered == batch == [] && !closed && pending == 0
      ensures rx.Contents() == tx.Contents() == [] && fresh({rx, tx}) && fresh({rx.data, tx.data})
    {
      rx := new Queue();
      tx := new Queue();
      txPolling, closed, pending, batch, delivered := false, false, 0, [], [];
      rxLog, txLog := Log([], []), Log([], []);
    }

    /** The common end of link_write and udp_conn_sendto: the packet is appended, and a poll is asked
        for unless one is pending.  `accepts` is the answer of tcpip_try_callback. */
    method Send(p: Ptr, accepts: bool) returns (freed: Ptr)
      requires Valid()
      modifies this, tx, tx.data
      ensures Valid() && txLog == Pushed(old(txLog), old(tx.Contents()), p) && tx.Contents() == Newest(old(tx.Contents()) + [p])
      ensures freed == if |old(tx.Contents())| == LENGTH then old(tx.Contents())[0] else NULL
      ensures pending == if old(pending) == 0 && accepts then 1 else old(pending)
      ensures tx.Contents() != [] && pending == 0 <==> old(pending) == 0 && !accepts
      ensures rxLog == old(rxLog) && rx.Contents() == old(rx.Contents()) && delivered == old(delivered) && batch == old(batch) && closed == old(closed)
    {
      PushRecords(txLog, tx.Contents(), p);
      txLog := Pushed(txLog, tx.Contents(), p);
      freed := tx.Push(p);
      if !txPolling {
        if accepts {
          pending := pending + 1;
          txPolling := true;
        }
      }
    }

    /** poll_tx and udp_poll_tx up to the end of the critical section.  They run on the stack's
        thread, one after the other. */
    method PollTx()
      requires Valid() && 0 < pending && batch == []
      modifies this, tx, tx.data
      ensures Valid() && pending == 0 && !txPolling && delivered == old(delivered) && rxLog == old(rxLog) && rx.Contents() == old(rx.Contents()) && closed == old(closed)
      ensures batch + tx.Contents() == old(tx.Contents()) && |batch| <= BATCH && (|batch| < BATCH ==> tx.Contents() == [])
      ensures txLog == Popped(old(txLog), batch) && (tx.Contents() != [] <==> |old(tx.Contents())| > BATCH)
    {
      assert delivered + [] == delivered;
      var out := tx.Pop(BATCH);
      PopRecords(txLog, out, tx.Contents());
      txPolling, pending := false, pending - 1;
      batch, txLog := out, Popped(txLog, out);
    }

    /** The callback goes on: one packet is passed to the stack. */
    method Deliver() returns (p: Ptr)
      requires Valid() && batch != []
      modifies this
      ensures Valid() && p == old(batch)[0] && batch == old(batch)[1..] && delivered == old(delivered) + [p]
      ensures pending == old(pending) && rxLog == old(rxLog) && txLog == old(txLog) && closed == old(closed)
    {
      p := batch[0];
      assert delivered + batch == (delivered + [p]) + batch[1..];
      delivered := delivered + [p];
      batch := batch[1..];
    }

    /** if_output and udp_on_received */
    method Receive(p: Ptr) returns (freed: Ptr)
      requires Valid()
      modifies this, rx, rx.data
      ensures Valid() && rxLog == Pushed(old(rxLog), old(rx.Contents()), p) && rx.Contents() == Newest(old(rx.Contents()) + [p])
      ensures freed == if |old(rx.Contents())| == LENGTH then old(rx.Contents())[0] else NULL
      ensures txLog == old(txLog) && tx.Contents() == old(tx.Contents()) && delivered == old(delivered) && batch == old(batch) && pending == old(pending) && closed == old(closed)
    {
      PushRecords(rxLog, rx.Contents(), p);
      rxLog := Pushed(rxLog, rx.Contents(), p);
      freed := rx.Push(p);
    }

    /** link_read and udp_conn_recv: what a reader finds whenever it looks.  After closing, packets
        that are still there can be read. */
    method TryRead() returns (r: Read)
      requires Valid()
      modifies this, rx, rx.data
      ensures Valid() && txLog == old(txLog) && tx.Contents() == old(tx.Contents()) && delivered == old(delivered) && batch == old(batch)
      ensures pending == old(pending) && closed == old(closed)
      ensures if old(rx.Contents()) == [] then r == (if closed then IsClosed else Waits) && rxLog == old(rxLog) && rx.Contents() == []
              else r == Got(old(rx.Contents())[0]) && rx.Contents() == old(rx.Contents())[1..] && rxLog == Popped(old(rxLog), [r.p])
    {
      var n := rx.Size();
      if n == 0 { return if closed then IsClosed else Waits; }
      ghost var s, log := rx.Contents(), rxLog;
      var out := rx.Pop(1);
      assert out + rx.Contents() == s && out != [];
      assert out == [s[0]];
      PopRecords(log, out, rx.Contents());
      rxLog := Popped(log, out);
      return Got(out[0]);
    }

    /** link_close and udp_conn_close */
    method Close()
      requires Valid()
      modifies this
      ensures Valid() && closed && rxLog == old(rxLog) && txLog == old(txLog) && pending == old(pending) && delivered == old(delivered) && batch == old(batch)
    {
      closed := true;
    }
  }
}
