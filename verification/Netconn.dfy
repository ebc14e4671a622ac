/** lwip/api/api_msg.c for an accepted TCP connection: writing, closing and deleting it, and the
    callbacks of the stack.  With core locking each call runs alone until it returns or sleeps.

    `NetconnState` holds the connection as a value and says what the state, the current message
    and the sleeping threads must agree on; `NetconnSteps` says what each method here does, and
    carries what is true of whole runs. */
module Netconn {
  import opened Bytes
  import opened Errors
  import opened NetconnState
  import opened NetconnSteps

  class Netconn {
    var n: Net

    constructor ()
      ensures n == Initial() && Valid(n)
    {
      n := Net(Conn(NONE, 0, true, Ok, Callbacks(true, true, true, true)), map[], Threads({}, multiset{}, map[]));
    }

    /** The inner loop of lwip_netconn_do_writemore, for one vector. */
    method WriteLoop(env: Sending) returns (err: Err)
      requires Consistent(n) && n.conn.currentMsg in n.msgs
      requires n.msgs[n.conn.currentMsg].WriteMessage? && n.msgs[n.conn.currentMsg].offset < |n.msgs[n.conn.currentMsg].data|
      modifies this
      ensures n == AfterLoop(old(n), env)
      ensures err == var w := old(n).msgs[old(n).conn.currentMsg]; Loop(w.data, w.offset, w.dontblock, env, 0).1
    {
      ghost var n0 := n;
      var m, i, more := n.conn.currentMsg, 0, true;
      ghost var w0 := n.msgs[m];
      TookNothing(n);
      err := Ok;
      while more && err == Ok
        invariant m == n0.conn.currentMsg && i >= 0 && Looping(n0, n, w0)
        invariant more && err == Ok ==> n.msgs[m].offset < |w0.data|
        invariant Loop(w0.data, w0.offset, w0.dontblock, env, 0) ==
                    if more && err == Ok then Loop(w0.data, n.msgs[m].offset, w0.dontblock, env, i) else (n.msgs[m].offset, err)
        decreases |w0.data| - n.msgs[m].offset, if more && err == Ok then 1 else 0
      {
        err, more := WritePiece(env, i, n0, w0);
        i := i + 1;
      }
    }

    /** One round of the loop; without room a write that must not block goes no further. */
    method WritePiece(env: Sending, i: nat, ghost n0: Net, ghost w0: Message) returns (err: Err, more: bool)
      requires Looping(n0, n, w0) && n.msgs[n0.conn.currentMsg].offset < |w0.data|
      modifies this
      ensures Looping(n0, n, w0) && old(n).msgs[n0.conn.currentMsg].offset <= n.msgs[n0.conn.currentMsg].offset
      ensures more && err == Ok ==> old(n).msgs[n0.conn.currentMsg].offset < n.msgs[n0.conn.currentMsg].offset < |w0.data|
      ensures Loop(w0.data, old(n).msgs[n0.conn.currentMsg].offset, w0.dontblock, env, i) ==
                var o := n.msgs[n0.conn.currentMsg].offset; if more && err == Ok then Loop(w0.data, o, w0.dontblock, env, i + 1) else (o, err)
    {
      var w := n.msgs[n.conn.currentMsg];
      var diff := |w.data| - w.offset;
      var len: u16 := if diff > 0xFFFF then 0xFFFF else diff;
      var available := env.room(i);
      if available < len {
        len := available;
        if w.dontblock && len == 0 {
          return if w.offset == 0 then WouldBlock else Ok, false;
        }
      }
      assert w.offset + len <= |w.data|;
      more := len == 0xFFFF && diff > 0xFFFF;
      err := env.write(i);
      if err == Ok {
        TookMore(n0, n, w0, len);
        n := Took(n, len);
      }
    }

    /** lwip_netconn_do_writemore: with `delayed` the thread sleeps and is signalled at the end. */
    method WriteMore(env: Sending, delayed: bool) returns (r: Err)
      requires Writing(n, delayed)
      modifies this
      ensures n == AfterMore(old(n), env, delayed)
      ensures r == if n.conn.currentMsg == old(n).conn.currentMsg then OutOfMemory else Ok
    {
      var m := n.conn.currentMsg;
      ghost var n0 := n;
      var err := WriteLoop(env);
      LoopTakes(n0, env);
      var w, finished := n.msgs[m], false;
      if err == Ok {
        if w.offset == |w.data| || w.dontblock { finished := true; }
        if env.output == NoRoute { err, finished := NoRoute, true; }
      } else if err == OutOfMemory {
        if env.output == NoRoute {
          err, finished := NoRoute, true;
        } else if w.dontblock {
          err, finished := if w.offset == 0 then WouldBlock else Ok, true;
        }
      } else {
        finished := true;
      }
      if finished {
        n := Ended(n, err, delayed);
        return Ok;
      }
      return OutOfMemory;
    }

    /** lwip_netconn_do_close_internal */
    method CloseInternal(env: Closing, delayed: bool) returns (r: Err)
      requires BeingClosed(n, delayed, env)
      modifies this
      ensures n == AfterTry(old(n), env, delayed)
      ensures r == if n.conn.currentMsg == old(n).conn.currentMsg then OutOfMemory else Ok
    {
      var msg := n.msgs[n.conn.currentMsg];
      var full := FullClose(msg.shut, env);
      var cb := n.conn.cb;
      if full { cb := cb.(arg := false); }
      if msg.shut.wr { cb := cb.(sent := false); }
      if full { cb := cb.(poll := false, err := false); }
      var err, finished := env.result, false;
      if err == Ok {
        finished := true;
      } else if err == OutOfMemory {
        if msg.pollsLeft == 0 {
          finished := true;
          if full { err := Ok; }
        }
      } else {
        finished := true;
      }
      if finished {
        n := Ended(n, err, delayed);
        n := n.(conn := n.conn.(cb := cb));
        if err == Ok && full { n := n.(conn := n.conn.(pcb := false)); }
        return Ok;
      }
      if msg.shut.wr { cb := cb.(sent := true); }
      cb := cb.(poll := true, err := true, arg := true);
      n := n.(conn := n.conn.(cb := cb));
      return err;
    }

    /** lwip_netconn_do_write.  Returns whether the calling thread goes to sleep. */
    method Write(m: nat, data: seq<byte>, dontblock: bool, env: Sending) returns (sleeps: bool)
      requires Valid(n) && m != 0 && m !in n.msgs && data != []
      modifies this
      ensures n == AfterWrite(old(n), m, data, dontblock, env) && Valid(n) && (sleeps <==> m in n.threads.slept)
      ensures m in n.msgs && n.msgs[m].WriteMessage?
      ensures old(n).conn.pendingErr != Ok ==> n.msgs[m].err == old(n).conn.pendingErr && !sleeps
      ensures old(n).conn.pendingErr == Ok && old(n).conn.state != NONE ==> n.msgs[m].err == InProgress && !sleeps
      ensures old(n).conn.pendingErr == Ok && old(n).conn.state == NONE && !old(n).conn.pcb ==> n.msgs[m].err == NotConnected && !sleeps
      ensures old(n).conn.pendingErr == Ok && old(n).conn.state == NONE && old(n).conn.pcb && !sleeps ==> WriteEnds(n.msgs[m], env)
    {
      WriteAnswers(n, m, data, dontblock, env);
      var err := n.conn.pendingErr;
      ConnReady(n, n.conn.(pendingErr := Ok), true);
      n := n.(conn := n.conn.(pendingErr := Ok));
      if err == Ok {
        if n.conn.state != NONE {
          err := InProgress;
        } else if n.conn.pcb {
          BegunReady(n, m, WriteMessage(data, 0, dontblock, BadValue), WRITE);
          n := Begun(n, m, WriteMessage(data, 0, dontblock, BadValue), WRITE);
          var r := WriteMore(env, false);
          sleeps := r != Ok;
          if sleeps { n := Asleep(n); }
          return;
        } else {
          err := NotConnected;
        }
      }
      n := Answered(n, m, WriteMessage(data, 0, dontblock, err));
      sleeps := false;
    }

    /** The end of a blocking write by another thread that closes the connection. */
    method AbortWrite()
      requires Valid(n) && n.conn.state == WRITE
      modifies this
      ensures n == WriteAborted(old(n))
    {
      n := Ended(n, Err.Closed, true);
    }

    /** The common end of lwip_netconn_do_close and lwip_netconn_do_delconn: the close is started. */
    method StartClose(m: nat, msg: Message, env: Closing) returns (sleeps: bool)
      requires Valid(n) && n.conn.state == NONE && n.conn.pcb && m != 0 && m !in n.msgs && msg.CloseMessage? && Possible(msg.shut, env)
      modifies this
      ensures n == AfterStart(old(n), m, msg, env) && (sleeps <==> m in n.threads.slept)
    {
      StartAnswers(n, m, msg, env);
      BegunReady(n, m, msg, CLOSE);
      n := Begun(n, m, msg, CLOSE);
      var r := CloseInternal(env, false);
      sleeps := r != Ok;
      if sleeps { n := Asleep(n); }
    }

    /** lwip_netconn_do_close.  `err` is what the message holds beforehand: with a close already
        running, and then only, it is left there. */
    method Close(m: nat, shut: Shut, pollsLeft: nat, err: Err, env: Closing) returns (sleeps: bool)
      requires Valid(n) && m != 0 && m !in n.msgs && Possible(shut, env)
      modifies this
      ensures n == AfterClose(old(n), m, shut, pollsLeft, err, env) && Valid(n) && (sleeps <==> m in n.threads.slept) && m in n.msgs
      ensures !old(n).conn.pcb ==> n.msgs[m].err == NotConnected && !sleeps
      ensures old(n).conn.pcb && old(n).conn.state == CLOSE ==> n.msgs[m].err == err && !sleeps
      ensures old(n).conn.pcb && old(n).conn.state == WRITE && !shut.wr ==> n.msgs[m].err == env.result && !sleeps
      ensures old(n).conn.pcb && (old(n).conn.state == NONE || (old(n).conn.state == WRITE && shut.wr)) ==>
                if env.result == OutOfMemory && pollsLeft > 0 then sleeps
                else !sleeps && n.msgs[m].err == if env.result == OutOfMemory && FullClose(shut, env) then Ok else env.result
    {
      CloseAnswers(n, m, shut, pollsLeft, err, env);
      var answer := err;
      if n.conn.pcb {
        if n.conn.state == WRITE {
          if shut.wr {
            WriteAbortedValid(n);
            AbortWrite();
          } else {
            answer := env.result;
          }
        }
        if n.conn.state == NONE {
          sleeps := StartClose(m, CloseMessage(shut, pollsLeft, err), env);
          return;
        }
      } else {
        answer := NotConnected;
      }
      n := Answered(n, m, CloseMessage(shut, pollsLeft, answer));
      sleeps := false;
    }

    /** lwip_netconn_do_delconn: not to be called while a close is running. */
    method Delete(m: nat, pollsLeft: nat, env: Closing) returns (sleeps: bool)
      requires Valid(n) && m != 0 && m !in n.msgs && n.conn.state != CLOSE && Possible(BOTH, env)
      modifies this
      ensures n == AfterDelete(old(n), m, pollsLeft, env) && Valid(n) && (sleeps <==> m in n.threads.slept) && m in n.msgs
      ensures !sleeps ==> n.conn.state == NONE && !n.conn.pcb && n.msgs[m].err == Ok
      ensures sleeps <==> old(n).conn.pcb && env.result == OutOfMemory && pollsLeft > 0
    {
      DeleteAnswers(n, m, pollsLeft, env);
      WriteAbortedValid(n);
      if n.conn.state == WRITE { AbortWrite(); }
      if n.conn.pcb {
        sleeps := StartClose(m, CloseMessage(BOTH, pollsLeft, Ok), env);
      } else {
        n := Answered(n, m, CloseMessage(BOTH, pollsLeft, Ok));
        sleeps := false;
      }
    }

    // ---- callbacks of the stack ------------------------------------------------------------------

    /** poll_tcp */
    method PollTcp(sending: Sending, closing: Closing)
      requires Answerable(n, closing) && n.conn.pcb && n.conn.cb.arg && n.conn.cb.poll
      modifies this
      ensures n == AfterPoll(old(n), sending, closing) && Valid(n) && Woken(old(n), n)
    {
      PollAnswers(n, sending, closing);
      if n.conn.state == WRITE {
        var _ := WriteMore(sending, true);
      } else if n.conn.state == CLOSE {
        PolledReady(n, true);
        n := Polled(n);
        var _ := CloseInternal(closing, true);
      }
    }

    /** sent_tcp */
    method SentTcp(sending: Sending, closing: Closing)
      requires Answerable(n, closing) && n.conn.pcb && n.conn.cb.arg && n.conn.cb.sent
      modifies this
      ensures n == AfterSent(old(n), sending, closing) && Valid(n) && Woken(old(n), n)
    {
      SentAnswers(n, sending, closing);
      if n.conn.state == WRITE {
        var _ := WriteMore(sending, true);
      } else if n.conn.state == CLOSE {
        var _ := CloseInternal(closing, true);
      }
    }

    /** err_tcp: the block is gone; a close has succeeded by that, a write has failed. */
    method ErrTcp(err: Err)
      requires Valid(n) && n.conn.pcb && n.conn.cb.arg && n.conn.cb.err && err != Ok
      modifies this
      ensures n == AfterErr(old(n), err) && Valid(n) && Woken(old(n), n)
    {
      ErrAnswers(n, err);
      var oldState := n.conn.state;
      if oldState == WRITE || oldState == CLOSE {
        n := Ended(n, if oldState == CLOSE then Ok else err, true);
      }
      n := n.(conn := n.conn.(pcb := false, pendingErr := err));
    }
  }

  /** The loop has taken some bytes of the current message. */
  ghost predicate Looping(n0: Net, n: Net, w0: Message) {
    var m := n0.conn.currentMsg;
    && w0.WriteMessage? && m in n0.msgs && n0.msgs[m] == w0 && m in n0.threads.given && m in n.msgs && n.conn == n0.conn
    && m in n.threads.given && n.msgs[m].WriteMessage? && n.msgs[m] == w0.(offset := n.msgs[m].offset)
    && w0.offset <= n.msgs[m].offset <= |w0.data| && n == Took(n0, n.msgs[m].offset - w0.offset)
  }

  lemma {:induction false} TookNothing(n: Net)
    requires Consistent(n) && n.conn.currentMsg in n.msgs && n.msgs[n.conn.currentMsg].WriteMessage? && n.msgs[n.conn.currentMsg].offset <= |n.msgs[n.conn.currentMsg].data|
    ensures Looping(n, n, n.msgs[n.conn.currentMsg])
  {
    var m := n.conn.currentMsg;
    assert Given(n, m);
    assert n.threads.given[m] + [] == n.threads.given[m];
    assert n.msgs[m := n.msgs[m]] == n.msgs && n.threads.given[m := n.threads.given[m]] == n.threads.given;
  }

  lemma {:induction false} TookMore(n0: Net, n: Net, w0: Message, len: nat)
    requires Looping(n0, n, w0) && n.msgs[n0.conn.currentMsg].offset + len <= |w0.data|
    ensures Looping(n0, Took(n, len), w0)
  {
    var m, o := n0.conn.currentMsg, n.msgs[n0.conn.currentMsg].offset;
    assert w0.data[w0.offset..o] + w0.data[o..o + len] == w0.data[w0.offset..o + len];
    assert (n0.threads.given[m] + w0.data[w0.offset..o]) + w0.data[o..o + len] == n0.threads.given[m] + (w0.data[w0.offset..o] + w0.data[o..o + len]);
    var n' := Took(n, len);
    assert n'.msgs == Took(n0, o + len - w0.offset).msgs;
    assert n'.threads.given == Took(n0, o + len - w0.offset).threads.given;
  }
}
