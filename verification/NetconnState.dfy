/** A TCP connection as lwip/api/api_msg.c sees it, with the threads that wait for it. */
module NetconnState {
  import opened Bytes
  import opened Errors

  datatype State = NONE | WRITE | CLOSE

  datatype Shut = Shut(rd: bool, wr: bool)

  /** struct api_msg of a write or of a close. */
  datatype Message =
    | WriteMessage(data: seq<byte>, offset: nat, dontblock: bool, err: Err)
    | CloseMessage(shut: Shut, pollsLeft: nat, err: Err)

  /** Which callbacks of the block still lead to this connection. */
  datatype Callbacks = Callbacks(arg: bool, sent: bool, poll: bool, err: bool)

  /** struct netconn; `currentMsg` is 0 for NULL, and `pcb` tells whether there is a block. */
  datatype Conn = Conn(state: State, currentMsg: nat, pcb: bool, pendingErr: Err, cb: Callbacks)

  /** What the program does not store: which messages' threads went to sleep, the signals to each,
      and the bytes given to tcp_write for each. */
  datatype Threads = Threads(slept: set<nat>, signals: multiset<nat>, given: map<nat, seq<byte>>)

  datatype Net = Net(conn: Conn, msgs: map<nat, Message>, ghost threads: Threads)

  /** A thread that sleeps was signalled exactly once, unless its message is still current; a
      thread that did not go to sleep was never signalled. */
  ghost predicate Signalled(n: Net, m: nat) {
    n.threads.signals[m] == if m in n.threads.slept && m != n.conn.currentMsg then 1 else 0
  }

  /** tcp_write has taken exactly the bytes before `offset`; a blocking write that ended well has
      passed all. */
  ghost predicate Given(n: Net, m: nat)
    requires m in n.msgs
  {
    match n.msgs[m]
    case WriteMessage(data, offset, dontblock, err) =>
      && offset <= |data| && m in n.threads.given && n.threads.given[m] == data[..offset]
      && (m != n.conn.currentMsg && err == Ok && !dontblock ==> offset == |data|)
    case CloseMessage(_, _, _) => true
  }

  /** The message of a running operation; `asleep` tells whether its thread has gone to sleep. */
  ghost predicate Running(n: Net, asleep: bool) {
    var m := n.conn.currentMsg;
    && m in n.msgs && n.conn.pcb && (m in n.threads.slept <==> asleep)
    && match n.msgs[m]
       case WriteMessage(data, offset, _, _) => n.conn.state == WRITE && offset < |data|
       case CloseMessage(_, _, _) => n.conn.state == CLOSE
  }

  ghost predicate Consistent(n: Net) {
    && 0 !in n.msgs && n.threads.slept <= n.msgs.Keys
    && (forall m {:trigger Signalled(n, m)} :: Signalled(n, m))
    && (forall m {:trigger Given(n, m)} :: m in n.msgs ==> Given(n, m))
  }

  /** `current_msg` is set exactly in states WRITE and CLOSE. */
  ghost predicate Ready(n: Net, asleep: bool) {
    && Consistent(n) && (n.conn.state != NONE <==> n.conn.currentMsg != 0)
    && (n.conn.currentMsg != 0 ==> Running(n, asleep))
  }

  /** Whoever waits can still be woken: by the poll timer, and by an error of the connection. */
  ghost predicate Wakeable(n: Net) {
    n.conn.pcb ==> n.conn.cb.arg && n.conn.cb.poll && n.conn.cb.err
  }

  ghost predicate Valid(n: Net) {
    Ready(n, true) && Wakeable(n)
  }

  // ---- steps -----------------------------------------------------------------------------------

  /** A new message becomes the current one. */
  function Begun(n: Net, m: nat, msg: Message, state: State): Net {
    n.(conn := n.conn.(state := state, currentMsg := m), msgs := n.msgs[m := msg],
       threads := n.threads.(given := n.threads.given[m := []]))
  }

  lemma {:induction false} BegunReady(n: Net, m: nat, msg: Message, state: State)
    requires Valid(n) && n.conn.state == NONE && n.conn.pcb && m != 0 && m !in n.msgs
    requires match msg case WriteMessage(data, offset, _, _) => state == WRITE && offset == 0 && data != [] case CloseMessage(_, _, _) => state == CLOSE
    ensures Ready(Begun(n, m, msg, state), false) && Wakeable(Begun(n, m, msg, state))
  {
    var n' := Begun(n, m, msg, state);
    forall k ensures Signalled(n', k) { assert Signalled(n, k); }
    forall k | k in n'.msgs ensures Given(n', k) { if k != m { assert Given(n, k); } }
  }

  /** Its thread goes to sleep. */
  function Asleep(n: Net): Net {
    n.(threads := n.threads.(slept := n.threads.slept + {n.conn.currentMsg}))
  }

  lemma {:induction false} AsleepReady(n: Net)
    requires Ready(n, false) && n.conn.currentMsg != 0
    ensures Ready(Asleep(n), true)
  {
    var n' := Asleep(n);
    forall k ensures Signalled(n', k) { assert Signalled(n, k); }
    forall k | k in n'.msgs ensures Given(n', k) { assert Given(n, k); }
  }

  function WithErr(msg: Message, err: Err): Message {
    msg.(err := err)
  }

  /** The current operation ends with `err`; a thread that sleeps is signalled. */
  function Ended(n: Net, err: Err, signal: bool): Net
    requires n.conn.currentMsg in n.msgs
  {
    var m := n.conn.currentMsg;
    n.(conn := n.conn.(state := NONE, currentMsg := 0), msgs := n.msgs[m := WithErr(n.msgs[m], err)],
       threads := if signal then n.threads.(signals := n.threads.signals + multiset{m}) else n.threads)
  }

  lemma {:induction false} EndedReady(n: Net, err: Err, asleep: bool)
    requires Ready(n, asleep) && n.conn.currentMsg != 0
    requires n.conn.state == WRITE && err == Ok ==> n.msgs[n.conn.currentMsg].dontblock
    ensures Ready(Ended(n, err, asleep), true)
  {
    EndedConsistent(n, err, asleep);
  }

  /** The same, where a write that ends may have given all its bytes. */
  lemma {:induction false} EndedConsistent(n: Net, err: Err, asleep: bool)
    requires Consistent(n) && n.conn.currentMsg != 0 && n.conn.currentMsg in n.msgs && (n.conn.currentMsg in n.threads.slept <==> asleep)
    requires match n.msgs[n.conn.currentMsg]
             case WriteMessage(data, offset, dontblock, _) => err == Ok && !dontblock ==> offset == |data|
             case CloseMessage(_, _, _) => true
    ensures Ready(Ended(n, err, asleep), true)
  {
    var n', m := Ended(n, err, asleep), n.conn.currentMsg;
    forall k ensures Signalled(n', k) { assert Signalled(n, k); }
    forall k | k in n'.msgs ensures Given(n', k) { assert Given(n, k); }
  }

  /** tcp_write has taken `len` more bytes of the current message. */
  function Took(n: Net, len: nat): Net
    requires n.conn.currentMsg in n.msgs && n.msgs[n.conn.currentMsg].WriteMessage? && n.conn.currentMsg in n.threads.given
    requires n.msgs[n.conn.currentMsg].offset + len <= |n.msgs[n.conn.currentMsg].data|
  {
    var m := n.conn.currentMsg;
    var w := n.msgs[m];
    n.(msgs := n.msgs[m := w.(offset := w.offset + len)],
       threads := n.threads.(given := n.threads.given[m := n.threads.given[m] + w.data[w.offset..w.offset + len]]))
  }

  lemma {:induction false} TookConsistent(n: Net, len: nat)
    requires Consistent(n) && n.conn.currentMsg in n.msgs && n.msgs[n.conn.currentMsg].WriteMessage?
    requires n.msgs[n.conn.currentMsg].offset + len <= |n.msgs[n.conn.currentMsg].data|
    ensures n.conn.currentMsg in n.threads.given && Consistent(Took(n, len))
  {
    var m := n.conn.currentMsg;
    assert Given(n, m);
    var n', w := Took(n, len), n.msgs[m];
    assert w.data[..w.offset] + w.data[w.offset..w.offset + len] == w.data[..w.offset + len];
    forall k ensures Signalled(n', k) { assert Signalled(n, k); }
    forall k | k in n'.msgs ensures Given(n', k) { assert Given(n, k); }
  }

  /** Nothing the messages depend on: the block, its callbacks, a pending error. */
  lemma {:induction false} ConnReady(n: Net, conn: Conn, asleep: bool)
    requires Ready(n, asleep) && conn.state == n.conn.state && conn.currentMsg == n.conn.currentMsg && (conn.currentMsg != 0 ==> conn.pcb)
    ensures Ready(n.(conn := conn), asleep)
  {
    var n' := n.(conn := conn);
    forall k ensures Signalled(n', k) { assert Signalled(n, k); }
    forall k | k in n'.msgs ensures Given(n', k) { assert Given(n, k); }
  }

  /** A poll during a close: one less is left. */
  function Polled(n: Net): Net
    requires n.conn.currentMsg in n.msgs
  {
    var m := n.conn.currentMsg;
    match n.msgs[m]
    case CloseMessage(shut, pollsLeft, err) => n.(msgs := n.msgs[m := CloseMessage(shut, if pollsLeft == 0 then 0 else pollsLeft - 1, err)])
    case WriteMessage(_, _, _, _) => n
  }

  lemma {:induction false} PolledReady(n: Net, asleep: bool)
    requires Ready(n, asleep) && n.conn.state == CLOSE
    ensures n.conn.currentMsg in n.msgs && Ready(Polled(n), asleep)
  {
    var n' := Polled(n);
    forall k ensures Signalled(n', k) { assert Signalled(n, k); }
    forall k | k in n'.msgs ensures Given(n', k) { assert Given(n, k); }
  }

  /** A call that returns at once without having become current. */
  function Answered(n: Net, m: nat, msg: Message): Net {
    n.(msgs := n.msgs[m := msg], threads := n.threads.(given := n.threads.given[m := []]))
  }

  lemma {:induction false} AnsweredReady(n: Net, m: nat, msg: Message)
    requires Ready(n, true) && m != 0 && m !in n.msgs
    requires match msg case WriteMessage(_, offset, _, err) => offset == 0 && err != Ok case CloseMessage(_, _, _) => true
    ensures Ready(Answered(n, m, msg), true)
  {
    var n' := Answered(n, m, msg);
    forall k ensures Signalled(n', k) { assert Signalled(n, k); }
    forall k | k in n'.msgs ensures Given(n', k) { if k != m { assert Given(n, k); } }
  }

  /** Only the current write has gone on. */
  ghost predicate WroteOn(n: Net, n': Net) {
    var m := n.conn.currentMsg;
    && m in n.msgs && n.msgs[m].WriteMessage? && n'.conn == n.conn && m in n'.msgs && n'.msgs[m].WriteMessage?
    && n'.msgs[m] == n.msgs[m].(offset := n'.msgs[m].offset) && n'.msgs == n.msgs[m := n'.msgs[m]]
    && n.msgs[m].offset <= n'.msgs[m].offset <= |n.msgs[m].data|
    && n'.threads == n.threads.(given := n'.threads.given) && Consistent(n')
  }

  lemma {:induction false} WroteOnRuns(n: Net, n': Net, asleep: bool)
    requires Ready(n, asleep) && n.conn.state == WRITE && WroteOn(n, n') && n'.msgs[n.conn.currentMsg].offset < |n'.msgs[n.conn.currentMsg].data|
    ensures Ready(n', asleep)
  {
  }

  /** The current operation has ended, its thread was signalled if it slept, and nothing else
      happened to the other messages. */
  ghost predicate Over(n: Net, n': Net, signal: bool) {
    var m := n.conn.currentMsg;
    && n'.conn.state == NONE && n'.conn.currentMsg == 0 && n'.msgs.Keys == n.msgs.Keys
    && (forall k :: k in n.msgs && k != m ==> n'.msgs[k] == n.msgs[k])
    && n'.threads.slept == n.threads.slept
    && n'.threads.signals == (if signal then n.threads.signals + multiset{m} else n.threads.signals)
  }
}
