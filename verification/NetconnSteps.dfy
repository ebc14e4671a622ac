/** Steps and runs of a connection in lwip/api/api_msg.c. */
module NetconnSteps {
  // What calls and callbacks make of a TCP connection is a function of the connection; the lemmas
  // say what that means to the threads involved.

  import opened Bytes
  import opened Errors
  import opened Wrappers
  import opened NetconnState

  /** How the stack answers during one step: room in the send buffer and result of each
      tcp_write, result of tcp_output. */
  datatype Sending = Sending(room: nat -> u16, write: nat -> Err, output: Err)

  /** The state of the block when it is to be closed, and the result of tcp_close or tcp_shutdown. */
  datatype Closing = Closing(closing: bool, rxClosed: bool, result: Err)

  /** One of the calls of tcp_write ends with `err`. */
  ghost predicate WriteGave(env: Sending, err: Err) {
    exists i :: env.write(i) == err
  }

  // ---- writing ----------------------------------------------------------------------------------

  /** How far the inner loop of lwip_netconn_do_writemore gets from `offset`, and how it ends.  It
      goes on as long as pieces of 65535 bytes are taken. */
  function Loop(data: seq<byte>, offset: nat, dontblock: bool, env: Sending, i: nat): (r: (nat, Err))
    requires offset < |data|
    ensures offset <= r.0 <= |data| && (r.1 == OutOfMemory ==> r.0 < |data|)
    ensures r.1 == Ok || WriteGave(env, r.1) || (r.1 == WouldBlock && dontblock && r.0 == 0)
    decreases |data| - offset
  {
    var diff := |data| - offset;
    var wanted := if diff > 0xFFFF then 0xFFFF else diff;
    var len := if env.room(i) < wanted then env.room(i) else wanted;
    if dontblock && len == 0 then (offset, if offset == 0 then WouldBlock else Ok)
    else if env.write(i) != Ok then (offset, env.write(i))
    else if len == 0xFFFF && diff > 0xFFFF then Loop(data, offset + len, dontblock, env, i + 1)
    else (offset + len, Ok)
  }

  /** Whether the write is over after the loop, and with what. */
  function Finished(data: seq<byte>, offset: nat, dontblock: bool, err: Err, env: Sending): Option<Err> {
    if err == Ok then
      if env.output == NoRoute then Some(NoRoute) else if offset == |data| || dontblock then Some(Ok) else None
    else if err == OutOfMemory then
      if env.output == NoRoute then Some(NoRoute)
      else if dontblock then Some(if offset == 0 then WouldBlock else Ok) else None
    else Some(err)
  }

  /** Why a write may end: all is sent, it must not block, or there was an error; and with what. */
  ghost predicate WriteEnds(w: Message, env: Sending)
    requires w.WriteMessage?
  {
    || (w.err == Ok && (w.offset == |w.data| || w.dontblock))
    || (w.err == WouldBlock && w.dontblock && w.offset == 0)
    || (w.err == NoRoute && env.output == NoRoute)
    || (w.err != Ok && w.err != OutOfMemory && WriteGave(env, w.err))
  }

  ghost predicate Writing(n: Net, asleep: bool) {
    Ready(n, asleep) && n.conn.state == WRITE
  }

  /** The bytes that the loop takes are given to tcp_write. */
  ghost function AfterLoop(n: Net, env: Sending): Net
    requires Consistent(n) && n.conn.currentMsg in n.msgs && n.msgs[n.conn.currentMsg].WriteMessage?
    requires n.msgs[n.conn.currentMsg].offset < |n.msgs[n.conn.currentMsg].data|
  {
    var w := n.msgs[n.conn.currentMsg];
    assert Given(n, n.conn.currentMsg);
    Took(n, Loop(w.data, w.offset, w.dontblock, env, 0).0 - w.offset)
  }

  /** lwip_netconn_do_writemore: with `delayed` the thread sleeps and is signalled at the end. */
  ghost function AfterMore(n: Net, env: Sending, delayed: bool): Net
    requires Writing(n, delayed)
  {
    var w := n.msgs[n.conn.currentMsg];
    var r := Loop(w.data, w.offset, w.dontblock, env, 0);
    match Finished(w.data, r.0, w.dontblock, r.1, env)
    case Some(err) => Ended(AfterLoop(n, env), err, delayed)
    case None => AfterLoop(n, env)
  }

  lemma {:induction false} LoopTakes(n: Net, env: Sending)
    requires Consistent(n) && n.conn.currentMsg in n.msgs && n.msgs[n.conn.currentMsg].WriteMessage?
    requires n.msgs[n.conn.currentMsg].offset < |n.msgs[n.conn.currentMsg].data|
    ensures WroteOn(n, AfterLoop(n, env))
  {
    var m := n.conn.currentMsg;
    var w := n.msgs[m];
    var k := Loop(w.data, w.offset, w.dontblock, env, 0).0 - w.offset;
    TookConsistent(n, k);
    assert n.msgs == n.msgs[m := w];
  }

  /** The write goes on, or it is over for one of the reasons there are. */
  lemma {:induction false} MoreReady(n: Net, env: Sending, delayed: bool)
    requires Writing(n, delayed)
    ensures var n', m := AfterMore(n, env, delayed), n.conn.currentMsg;
            if n'.conn.currentMsg == m then Writing(n', delayed) && WroteOn(n, n') && !n'.msgs[m].dontblock && env.output != NoRoute
            else && Ready(n', true) && Over(n, n', delayed) && n'.conn == n.conn.(state := NONE, currentMsg := 0)
                 && n'.msgs[m].WriteMessage? && WriteEnds(n'.msgs[m], env)
  {
    LoopTakes(n, env);
    var m, n1 := n.conn.currentMsg, AfterLoop(n, env);
    var w := n.msgs[m];
    var r := Loop(w.data, w.offset, w.dontblock, env, 0);
    match Finished(w.data, r.0, w.dontblock, r.1, env) {
      case Some(err) => EndedConsistent(n1, err, delayed);
      case None => WroteOnRuns(n, n1, delayed);
    }
  }

  /** The thread of a call sleeps if its message stays current. */
  ghost function SleepsIfCurrent(n: Net, m: nat): Net {
    if n.conn.currentMsg == m then Asleep(n) else n
  }

  /** lwip_netconn_do_write */
  ghost function AfterWrite(n: Net, m: nat, data: seq<byte>, dontblock: bool, env: Sending): Net
    requires Valid(n) && m != 0 && m !in n.msgs && data != []
  {
    var err := n.conn.pendingErr;
    var n1 := n.(conn := n.conn.(pendingErr := Ok));
    if err != Ok then Answered(n1, m, WriteMessage(data, 0, dontblock, err))
    else if n.conn.state != NONE then Answered(n1, m, WriteMessage(data, 0, dontblock, InProgress))
    else if !n.conn.pcb then Answered(n1, m, WriteMessage(data, 0, dontblock, NotConnected))
    else
      ConnReady(n, n1.conn, true);
      BegunReady(n1, m, WriteMessage(data, 0, dontblock, BadValue), WRITE);
      SleepsIfCurrent(AfterMore(Begun(n1, m, WriteMessage(data, 0, dontblock, BadValue), WRITE), env, false), m)
  }

  /** The answers of lwip_netconn_do_write: refused after an error, while another operation runs, and
      without a block; else the thread sleeps or the write is over. */
  lemma {:induction false} WriteAnswers(n: Net, m: nat, data: seq<byte>, dontblock: bool, env: Sending)
    requires Valid(n) && m != 0 && m !in n.msgs && data != []
    ensures var n' := AfterWrite(n, m, data, dontblock, env);
            && Valid(n') && m in n'.msgs && n'.msgs[m].WriteMessage? && n'.msgs[m].data == data && n'.conn.pendingErr == Ok
            && n'.threads.signals == n.threads.signals && (m in n'.threads.slept <==> n'.conn.currentMsg == m)
            && (forall k :: k in n.msgs ==> k in n'.msgs && n'.msgs[k] == n.msgs[k])
            && if n.conn.pendingErr != Ok then n'.msgs[m].err == n.conn.pendingErr && n'.conn.currentMsg == n.conn.currentMsg
               else if n.conn.state != NONE then n'.msgs[m].err == InProgress && n'.conn.currentMsg == n.conn.currentMsg
               else if !n.conn.pcb then n'.msgs[m].err == NotConnected && n'.conn.currentMsg == 0
               else n'.conn.currentMsg == m || (n'.conn.currentMsg == 0 && WriteEnds(n'.msgs[m], env))
  {
    var n1 := n.(conn := n.conn.(pendingErr := Ok));
    var w := WriteMessage(data, 0, dontblock, BadValue);
    ConnReady(n, n1.conn, true);
    if n.conn.pendingErr == Ok && n.conn.state == NONE && n.conn.pcb {
      BegunReady(n1, m, w, WRITE);
      var n2 := Begun(n1, m, w, WRITE);
      MoreReady(n2, env, false);
      var n3 := AfterMore(n2, env, false);
      if n3.conn.currentMsg == m { AsleepReady(n3); }
    } else {
      AnsweredReady(n1, m, AfterWrite(n, m, data, dontblock, env).msgs[m]);
    }
  }

  // ---- closing ----------------------------------------------------------------------------------

  /** Closing both sides, or the side that is still open. */
  predicate FullClose(shut: Shut, c: Closing) {
    (shut.rd && shut.wr) || (shut.rd && c.closing) || (shut.wr && c.rxClosed)
  }

  /** It is one exactly if nothing of the connection stays open. */
  lemma {:induction false} FullCloseIs(shut: Shut, c: Closing)
    requires shut.rd || shut.wr
    ensures FullClose(shut, c) <==> (shut.rd || c.rxClosed) && (shut.wr || c.closing)
  {
  }

  /** What tcp_close returns: only lack of memory can keep it from closing. */
  predicate Possible(shut: Shut, c: Closing) {
    FullClose(shut, c) ==> c.result == Ok || c.result == OutOfMemory
  }

  /** Whether a close is over whose thread has `pollsLeft` polls to wait, and with what. */
  function Closed(msg: Message, env: Closing): Option<Err>
    requires msg.CloseMessage?
  {
    if env.result != OutOfMemory then Some(env.result)
    else if msg.pollsLeft != 0 then None
    else Some(if FullClose(msg.shut, env) then Ok else OutOfMemory)
  }

  /** Callbacks that are taken away before the attempt to close. */
  function Cleared(cb: Callbacks, shut: Shut, full: bool): Callbacks {
    var cb1 := if shut.wr then cb.(sent := false) else cb;
    if full then cb1.(arg := false, poll := false, err := false) else cb1
  }

  /** They are given back if it is to be tried again. */
  function Restored(cb: Callbacks, shut: Shut): Callbacks {
    Callbacks(true, cb.sent || shut.wr, true, true)
  }

  ghost predicate BeingClosed(n: Net, asleep: bool, env: Closing) {
    && Ready(n, asleep) && n.conn.state == CLOSE
    && Possible(n.msgs[n.conn.currentMsg].shut, env)
  }

  /** lwip_netconn_do_close_internal */
  ghost function AfterTry(n: Net, env: Closing, delayed: bool): Net
    requires BeingClosed(n, delayed, env)
  {
    var msg := n.msgs[n.conn.currentMsg];
    var full := FullClose(msg.shut, env);
    var cb := Cleared(n.conn.cb, msg.shut, full);
    match Closed(msg, env)
    case Some(err) =>
      var n1 := Ended(n, err, delayed);
      n1.(conn := n1.conn.(cb := cb, pcb := n.conn.pcb && !(full && err == Ok)))
    case None => n.(conn := n.conn.(cb := Restored(cb, msg.shut)))
  }

  /** The close goes on, for lack of memory, or it is over; the connection keeps its block exactly if
      one side of it is still open. */
  lemma {:induction false} TryReady(n: Net, env: Closing, delayed: bool)
    requires BeingClosed(n, delayed, env) && Wakeable(n)
    ensures var n', m, msg := AfterTry(n, env, delayed), n.conn.currentMsg, n.msgs[n.conn.currentMsg];
            if n'.conn.currentMsg == m then Ready(n', delayed) && n'.conn.state == CLOSE && Wakeable(n') && n'.msgs == n.msgs && n'.threads == n.threads
                                            && env.result == OutOfMemory && msg.pollsLeft > 0
            else && Valid(n') && Over(n, n', delayed) && !(env.result == OutOfMemory && msg.pollsLeft > 0)
                 && n'.msgs[m] == WithErr(msg, if env.result == OutOfMemory && FullClose(msg.shut, env) then Ok else env.result)
                 && (n'.conn.pcb <==> !FullClose(msg.shut, env)) && n'.conn.pendingErr == n.conn.pendingErr
                 && (n'.conn.pcb ==> n'.conn.cb == n.conn.cb.(sent := n.conn.cb.sent && !msg.shut.wr))
  {
    var m, n' := n.conn.currentMsg, AfterTry(n, env, delayed);
    match Closed(n.msgs[m], env) {
      case Some(err) =>
        EndedReady(n, err, delayed);
        ConnReady(Ended(n, err, delayed), n'.conn, true);
      case None =>
        ConnReady(n, n'.conn, delayed);
    }
  }

  /** The end of a blocking write by a thread that closes the connection. */
  ghost function WriteAborted(n: Net): Net
    requires Valid(n)
  {
    if n.conn.state == WRITE then Ended(n, Err.Closed, true) else n
  }

  lemma {:induction false} WriteAbortedValid(n: Net)
    requires Valid(n)
    ensures Valid(WriteAborted(n)) && (n.conn.state != CLOSE ==> WriteAborted(n).conn.state == NONE)
  {
    if n.conn.state == WRITE { EndedReady(n, Err.Closed, true); }
  }

  /** The common end of lwip_netconn_do_close and lwip_netconn_do_delconn. */
  ghost function AfterStart(n: Net, m: nat, msg: Message, env: Closing): Net
    requires Valid(n) && n.conn.state == NONE && n.conn.pcb && m != 0 && m !in n.msgs && msg.CloseMessage? && Possible(msg.shut, env)
  {
    BegunReady(n, m, msg, CLOSE);
    SleepsIfCurrent(AfterTry(Begun(n, m, msg, CLOSE), env, false), m)
  }

  lemma {:induction false} StartAnswers(n: Net, m: nat, msg: Message, env: Closing)
    requires Valid(n) && n.conn.state == NONE && n.conn.pcb && m != 0 && m !in n.msgs && msg.CloseMessage? && Possible(msg.shut, env)
    ensures var n' := AfterStart(n, m, msg, env);
            && Valid(n') && m in n'.msgs && n'.threads.signals == n.threads.signals && (m in n'.threads.slept <==> n'.conn.currentMsg == m)
            && (forall k :: k in n.msgs ==> k in n'.msgs && n'.msgs[k] == n.msgs[k])
            && if env.result == OutOfMemory && msg.pollsLeft > 0 then n'.conn.state == CLOSE && n'.conn.currentMsg == m
               else && n'.conn.state == NONE && (n'.conn.pcb <==> !FullClose(msg.shut, env))
                    && n'.msgs[m].err == if env.result == OutOfMemory && FullClose(msg.shut, env) then Ok else env.result
  {
    BegunReady(n, m, msg, CLOSE);
    var n1 := Begun(n, m, msg, CLOSE);
    TryReady(n1, env, false);
    var n2 := AfterTry(n1, env, false);
    if n2.conn.currentMsg == m { AsleepReady(n2); }
  }

  /** lwip_netconn_do_close.  `err` is what the message holds beforehand. */
  ghost function AfterClose(n: Net, m: nat, shut: Shut, pollsLeft: nat, err: Err, env: Closing): Net
    requires Valid(n) && m != 0 && m !in n.msgs && Possible(shut, env)
  {
    if !n.conn.pcb then Answered(n, m, CloseMessage(shut, pollsLeft, NotConnected))
    else if n.conn.state == WRITE && !shut.wr then Answered(n, m, CloseMessage(shut, pollsLeft, env.result))
    else if n.conn.state == CLOSE then Answered(n, m, CloseMessage(shut, pollsLeft, err))
    else
      WriteAbortedValid(n);
      AfterStart(WriteAborted(n), m, CloseMessage(shut, pollsLeft, err), env)
  }

  /** The answers of lwip_netconn_do_close.  With another close running the message keeps the error
      it had; otherwise it gets one, unless its thread sleeps. */
  lemma {:induction false} CloseAnswers(n: Net, m: nat, shut: Shut, pollsLeft: nat, err: Err, env: Closing)
    requires Valid(n) && m != 0 && m !in n.msgs && Possible(shut, env)
    ensures var n' := AfterClose(n, m, shut, pollsLeft, err, env);
            var aborts := n.conn.pcb && n.conn.state == WRITE && shut.wr;
            && Valid(n') && m in n'.msgs && (m in n'.threads.slept <==> n'.conn.currentMsg == m)
            && n'.threads.signals == (if aborts then n.threads.signals + multiset{n.conn.currentMsg} else n.threads.signals)
            && (aborts ==> n.conn.currentMsg in n'.msgs && n'.msgs[n.conn.currentMsg] == WithErr(n.msgs[n.conn.currentMsg], Err.Closed))
            && if !n.conn.pcb then n'.msgs[m].err == NotConnected && n'.conn == n.conn
               else if n.conn.state == WRITE && !shut.wr then n'.msgs[m].err == env.result && n'.conn == n.conn
               else if n.conn.state == CLOSE then n'.msgs[m].err == err && n'.conn == n.conn
               else if env.result == OutOfMemory && pollsLeft > 0 then n'.conn.state == CLOSE && n'.conn.currentMsg == m
               else && n'.conn.state == NONE && (n'.conn.pcb <==> !FullClose(shut, env))
                    && n'.msgs[m].err == if env.result == OutOfMemory && FullClose(shut, env) then Ok else env.result
  {
    if n.conn.pcb && (n.conn.state == NONE || (n.conn.state == WRITE && shut.wr)) {
      WriteAbortedValid(n);
      StartAnswers(WriteAborted(n), m, CloseMessage(shut, pollsLeft, err), env);
    } else {
      AnsweredReady(n, m, AfterClose(n, m, shut, pollsLeft, err, env).msgs[m]);
    }
  }

  const BOTH := Shut(true, true)

  /** lwip_netconn_do_delconn */
  ghost function AfterDelete(n: Net, m: nat, pollsLeft: nat, env: Closing): Net
    requires Valid(n) && m != 0 && m !in n.msgs && n.conn.state != CLOSE && Possible(BOTH, env)
  {
    WriteAbortedValid(n);
    var n1 := WriteAborted(n);
    if n1.conn.pcb then AfterStart(n1, m, CloseMessage(BOTH, pollsLeft, Ok), env)
    else Answered(n1, m, CloseMessage(BOTH, pollsLeft, Ok))
  }

  /** After lwip_netconn_do_delconn the block is gone, or its thread sleeps. */
  lemma {:induction false} DeleteAnswers(n: Net, m: nat, pollsLeft: nat, env: Closing)
    requires Valid(n) && m != 0 && m !in n.msgs && n.conn.state != CLOSE && Possible(BOTH, env)
    ensures var n' := AfterDelete(n, m, pollsLeft, env);
            && Valid(n') && m in n'.msgs && (m in n'.threads.slept <==> n'.conn.currentMsg == m)
            && n'.threads.signals == (if n.conn.state == WRITE then n.threads.signals + multiset{n.conn.currentMsg} else n.threads.signals)
            && (n.conn.state == WRITE ==> n.conn.currentMsg in n'.msgs && n'.msgs[n.conn.currentMsg] == WithErr(n.msgs[n.conn.currentMsg], Err.Closed))
            && if n.conn.pcb && env.result == OutOfMemory && pollsLeft > 0 then n'.conn.state == CLOSE && n'.conn.currentMsg == m
               else n'.conn.state == NONE && !n'.conn.pcb && n'.msgs[m].err == Ok
  {
    WriteAbortedValid(n);
    var n1 := WriteAborted(n);
    if n1.conn.pcb {
      StartAnswers(n1, m, CloseMessage(BOTH, pollsLeft, Ok), env);
    } else {
      AnsweredReady(n1, m, CloseMessage(BOTH, pollsLeft, Ok));
    }
  }

  // ---- callbacks ----------------------------------------------------------------------------------

  ghost predicate Answerable(n: Net, closing: Closing) {
    Valid(n) && (n.conn.state == CLOSE ==> Possible(n.msgs[n.conn.currentMsg].shut, closing))
  }

  /** sent_tcp */
  ghost function AfterSent(n: Net, sending: Sending, closing: Closing): Net
    requires Answerable(n, closing)
  {
    if n.conn.state == WRITE then AfterMore(n, sending, true)
    else if n.conn.state == CLOSE then AfterTry(n, closing, true)
    else n
  }

  /** poll_tcp */
  ghost function AfterPoll(n: Net, sending: Sending, closing: Closing): Net
    requires Answerable(n, closing)
  {
    if n.conn.state == CLOSE then
      PolledReady(n, true);
      AfterTry(Polled(n), closing, true)
    else AfterSent(n, sending, closing)
  }

  /** A callback wakes at most the thread of the current message, and does so when that is over. */
  ghost predicate Woken(n: Net, n': Net) {
    && n'.threads.slept == n.threads.slept
    && if n.conn.currentMsg == 0 || n'.conn.currentMsg == n.conn.currentMsg then n'.threads.signals == n.threads.signals
       else n'.conn.state == NONE && n'.threads.signals == n.threads.signals + multiset{n.conn.currentMsg}
  }

  /** sent_tcp goes on with what is running: a write by what is taken, a close by a new attempt. */
  lemma {:induction false} SentAnswers(n: Net, sending: Sending, closing: Closing)
    requires Answerable(n, closing)
    ensures var n', m := AfterSent(n, sending, closing), n.conn.currentMsg;
            && Valid(n') && Woken(n, n')
            && (n.conn.state == NONE ==> n' == n)
            && (n.conn.state == WRITE && n'.conn.currentMsg != m ==> m in n'.msgs && n'.msgs[m].WriteMessage? && WriteEnds(n'.msgs[m], sending))
            && (n.conn.state == CLOSE ==> (n'.conn.currentMsg == m <==> closing.result == OutOfMemory && n.msgs[m].pollsLeft > 0))
  {
    if n.conn.state == WRITE { MoreReady(n, sending, true); }
    if n.conn.state == CLOSE { TryReady(n, closing, true); }
  }

  /** poll_tcp does the same, with one poll less to wait for a close. */
  lemma {:induction false} PollAnswers(n: Net, sending: Sending, closing: Closing)
    requires Answerable(n, closing)
    ensures var n', m := AfterPoll(n, sending, closing), n.conn.currentMsg;
            && Valid(n') && Woken(n, n')
            && (n.conn.state != CLOSE ==> n' == AfterSent(n, sending, closing))
            && (n.conn.state == CLOSE ==> (n'.conn.currentMsg == m <==> closing.result == OutOfMemory && n.msgs[m].pollsLeft > 1))
  {
    if n.conn.state == CLOSE {
      PolledReady(n, true);
      TryReady(Polled(n), closing, true);
    } else {
      SentAnswers(n, sending, closing);
    }
  }

  /** err_tcp */
  ghost function AfterErr(n: Net, err: Err): Net
    requires Valid(n)
  {
    var n1 := if n.conn.state == NONE then n else Ended(n, if n.conn.state == CLOSE then Ok else err, true);
    n1.(conn := n1.conn.(pcb := false, pendingErr := err))
  }

  /** A close has succeeded by an error of the connection, a write has failed. */
  lemma {:induction false} ErrAnswers(n: Net, err: Err)
    requires Valid(n) && err != Ok
    ensures var n', m := AfterErr(n, err), n.conn.currentMsg;
            && Valid(n') && Woken(n, n') && n'.conn.state == NONE && !n'.conn.pcb && n'.conn.pendingErr == err
            && (m != 0 ==> Over(n, n', true) && n'.msgs[m].err == if n.conn.state == CLOSE then Ok else err)
  {
    if n.conn.state != NONE {
      EndedReady(n, if n.conn.state == CLOSE then Ok else err, true);
      ConnReady(Ended(n, if n.conn.state == CLOSE then Ok else err, true), AfterErr(n, err).conn, true);
    } else {
      ConnReady(n, AfterErr(n, err).conn, true);
    }
  }

  // ---- runs -----------------------------------------------------------------------------------------

  datatype Step =
    | Write(m: nat, data: seq<byte>, dontblock: bool, sending: Sending)
    | Close(m: nat, shut: Shut, pollsLeft: nat, err: Err, closing: Closing)
    | Delete(m: nat, pollsLeft: nat, closing: Closing)
    | Sent(sending: Sending, closing: Closing)
    | Poll(sending: Sending, closing: Closing)
    | Failed(err: Err)

  /** Threads use a new message for each call and do not delete a connection that is being closed;
      the stack calls back as long as it is told to. */
  ghost predicate Enabled(n: Net, s: Step) {
    match s
    case Write(m, data, _, _) => m != 0 && m !in n.msgs && data != []
    case Close(m, shut, _, _, closing) => m != 0 && m !in n.msgs && Possible(shut, closing)
    case Delete(m, _, closing) => m != 0 && m !in n.msgs && n.conn.state != CLOSE && Possible(BOTH, closing)
    case Sent(_, closing) => n.conn.pcb && n.conn.cb.arg && n.conn.cb.sent && Answerable(n, closing)
    case Poll(_, closing) => n.conn.pcb && n.conn.cb.arg && n.conn.cb.poll && Answerable(n, closing)
    case Failed(err) => n.conn.pcb && n.conn.cb.arg && n.conn.cb.err && err != Ok
  }

  ghost function After(n: Net, s: Step): Net
    requires Valid(n) && Enabled(n, s)
  {
    match s
    case Write(m, data, dontblock, sending) => AfterWrite(n, m, data, dontblock, sending)
    case Close(m, shut, pollsLeft, err, closing) => AfterClose(n, m, shut, pollsLeft, err, closing)
    case Delete(m, pollsLeft, closing) => AfterDelete(n, m, pollsLeft, closing)
    case Sent(sending, closing) => AfterSent(n, sending, closing)
    case Poll(sending, closing) => AfterPoll(n, sending, closing)
    case Failed(err) => AfterErr(n, err)
  }

  lemma {:induction false} StepValid(n: Net, s: Step)
    requires Valid(n) && Enabled(n, s)
    ensures Valid(After(n, s)) && Grew(n, After(n, s))
  {
    match s {
      case Write(m, data, dontblock, sending) => WriteAnswers(n, m, data, dontblock, sending);
      case Close(m, shut, pollsLeft, err, closing) => CloseAnswers(n, m, shut, pollsLeft, err, closing);
      case Delete(m, pollsLeft, closing) => DeleteAnswers(n, m, pollsLeft, closing);
      case Sent(sending, closing) => SentAnswers(n, sending, closing);
      case Poll(sending, closing) => PollAnswers(n, sending, closing);
      case Failed(err) => ErrAnswers(n, err);
    }
  }

  /** No signal is taken back. */
  ghost predicate Grew(n: Net, n': Net) {
    n.threads.signals <= n'.threads.signals
  }

  /** An accepted connection. */
  ghost function Initial(): Net {
    Net(Conn(NONE, 0, true, Ok, Callbacks(true, true, true, true)), map[], Threads({}, multiset{}, map[]))
  }

  /** Threads and stack take these steps, in this order, from `n` to `n'`. */
  ghost predicate Run(n: Net, steps: seq<Step>, n': Net)
    decreases |steps|
  {
    if steps == [] then n' == n else Valid(n) && Enabled(n, steps[0]) && Run(After(n, steps[0]), steps[1..], n')
  }

  lemma {:induction false} RunValid(n: Net, steps: seq<Step>, n': Net)
    requires Valid(n) && Run(n, steps, n')
    ensures Valid(n') && Grew(n, n')
    decreases |steps|
  {
    if steps != [] {
      StepValid(n, steps[0]);
      RunValid(After(n, steps[0]), steps[1..], n');
    }
  }

  /** In every reachable state `current_msg` is set exactly in states WRITE and CLOSE; a thread that
      slept and whose operation is over was signalled once in the whole run, the one that still
      sleeps not yet, and nobody else ever; whoever waits can be woken. */
  lemma {:induction false} SignalledExactlyOnce(steps: seq<Step>, n: Net, m: nat)
    requires Run(Initial(), steps, n)
    ensures n.threads.signals[m] == if m in n.threads.slept && m != n.conn.currentMsg then 1 else 0
    ensures n.conn.currentMsg != 0 <==> n.conn.state == WRITE || n.conn.state == CLOSE
    ensures n.conn.currentMsg != 0 ==> n.conn.currentMsg in n.threads.slept && n.conn.pcb && n.conn.cb.arg && n.conn.cb.poll && n.conn.cb.err
  {
    RunValid(Initial(), steps, n);
    assert Signalled(n, m);
  }

  /** In every reachable state the bytes given to tcp_write for a write are the first `offset` bytes
      of its data; a blocking write that ended with ERR_OK has given all. */
  lemma {:induction false} BytesGiven(steps: seq<Step>, n: Net, m: nat)
    requires Run(Initial(), steps, n) && m in n.msgs && n.msgs[m].WriteMessage?
    ensures m in n.threads.given && n.msgs[m].offset <= |n.msgs[m].data| && n.threads.given[m] == n.msgs[m].data[..n.msgs[m].offset]
    ensures m != n.conn.currentMsg && !n.msgs[m].dontblock && n.msgs[m].err == Ok ==> n.threads.given[m] == n.msgs[m].data
  {
    RunValid(Initial(), steps, n);
    assert Given(n, m);
  }
}
