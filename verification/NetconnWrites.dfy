/** How far writes of lwip/api/api_msg.c get. */
module NetconnWrites {
  // The loop of lwip_netconn_do_writemore passes pieces of 65535 bytes to tcp_write as long as
  // there is room for that many, and then one more piece.

  import opened Bytes
  import opened Errors
  import opened NetconnState
  import opened NetconnSteps

  const PIECE: nat := 0xFFFF

  function Least(a: nat, b: nat): nat {
    if a < b then a else b
  }

  /** The first `k` calls took full pieces, each with more than a piece left. */
  ghost predicate FullPieces(data: seq<byte>, offset: nat, env: Sending, i: nat, k: nat) {
    forall j :: 0 <= j < k ==> FullPiece(data, offset, env, i, j)
  }

  ghost predicate FullPiece(data: seq<byte>, offset: nat, env: Sending, i: nat, j: nat) {
    env.room(i + j) == PIECE && env.write(i + j) == Ok && offset + j * PIECE + PIECE < |data|
  }

  /** After `k` full pieces there was a last call: for all that was left, or for as much as there
      was room for.  It was not made without room if the write must not block; if it failed nothing
      was taken; and it was no full piece with more behind it. */
  ghost predicate Stops(data: seq<byte>, offset: nat, dontblock: bool, env: Sending, i: nat, k: nat, end: nat, err: Err) {
    var p := offset + k * PIECE;
    && FullPieces(data, offset, env, i, k) && p < |data|
    && var len := Least(env.room(i + k), Least(|data| - p, PIECE));
       if dontblock && len == 0 then end == p && err == (if p == 0 then WouldBlock else Ok)
       else if env.write(i + k) != Ok then end == p && err == env.write(i + k)
       else end == p + len && err == Ok && !FullPiece(data, offset, env, i, k)
  }

  lemma {:induction false} NextPiece(data: seq<byte>, offset: nat, env: Sending, i: nat, j: nat)
    ensures FullPiece(data, offset, env, i, j + 1) <==> FullPiece(data, offset + PIECE, env, i + 1, j)
  {
    assert i + (j + 1) == i + 1 + j && (j + 1) * PIECE == PIECE + j * PIECE;
  }

  lemma {:induction false} StopsLater(data: seq<byte>, offset: nat, dontblock: bool, env: Sending, i: nat, k: nat, end: nat, err: Err)
    requires FullPiece(data, offset, env, i, 0) && Stops(data, offset + PIECE, dontblock, env, i + 1, k, end, err)
    ensures Stops(data, offset, dontblock, env, i, k + 1, end, err)
  {
    forall j | 0 <= j < k + 1 ensures FullPiece(data, offset, env, i, j) {
      if 0 < j { NextPiece(data, offset, env, i, j - 1); assert FullPiece(data, offset + PIECE, env, i + 1, j - 1); }
    }
    NextPiece(data, offset, env, i, k);
    assert i + (k + 1) == i + 1 + k;
  }

  lemma {:induction false} LoopStops(data: seq<byte>, offset: nat, dontblock: bool, env: Sending, i: nat) returns (k: nat)
    requires offset < |data|
    ensures var r := Loop(data, offset, dontblock, env, i);
            Stops(data, offset, dontblock, env, i, k, r.0, r.1)
    decreases |data| - offset
  {
    k := 0;
    if FullPiece(data, offset, env, i, 0) {
      k := LoopStops(data, offset + PIECE, dontblock, env, i + 1);
      var r := Loop(data, offset, dontblock, env, i);
      StopsLater(data, offset, dontblock, env, i, k, r.0, r.1);
      k := k + 1;
    }
  }

  /** What a step makes of the write that is running: with room and results as in `env` it stops at
      `w'.offset`.  It goes on exactly if it may block, has more to pass, and met no error but lack of
      memory; otherwise it is over with the error it met, or with ERR_WOULDBLOCK if it must not block
      and has passed nothing. */
  ghost predicate Moves(w: Message, w': Message, goesOn: bool, env: Sending, k: nat, err: Err)
    requires w.WriteMessage?
  {
    && w'.WriteMessage? && w'.data == w.data && w'.dontblock == w.dontblock
    && Stops(w.data, w.offset, w.dontblock, env, 0, k, w'.offset, err)
    && (goesOn <==> !w.dontblock && env.output != NoRoute && (err == OutOfMemory || (err == Ok && w'.offset < |w.data|)))
    && (!goesOn ==> w'.err == if err != Ok && err != OutOfMemory then err
                              else if env.output == NoRoute then NoRoute
                              else if err == OutOfMemory && w'.offset == 0 then WouldBlock else Ok)
  }

  lemma {:induction false} MoreMoves(n: Net, env: Sending, delayed: bool) returns (k: nat, err: Err)
    requires Writing(n, delayed)
    ensures var n', m := AfterMore(n, env, delayed), n.conn.currentMsg;
            && m in n'.msgs && m in n.msgs && n.msgs[m].WriteMessage? && n.msgs[m].offset < |n.msgs[m].data|
            && Moves(n.msgs[m], n'.msgs[m], n'.conn.currentMsg == m, env, k, err)
  {
    LoopTakes(n, env);
    var w := n.msgs[n.conn.currentMsg];
    k := LoopStops(w.data, w.offset, w.dontblock, env, 0);
    err := Loop(w.data, w.offset, w.dontblock, env, 0).1;
  }

  /** A write that goes on has used up the room that its last tcp_write had, or there was no memory. */
  lemma {:induction false} GoesOnForWantOfRoom(w: Message, w': Message, env: Sending, k: nat, err: Err)
    requires w.WriteMessage? && Moves(w, w', true, env, k, err)
    ensures var p := w.offset + k * PIECE;
            || (env.write(k) == OutOfMemory && w'.offset == p)
            || (env.write(k) == Ok && w'.offset == p + env.room(k) && p + env.room(k) < |w.data|)
  {
  }

  /** With some room and a tcp_write that takes it, the write gets on. */
  lemma {:induction false} GetsOn(w: Message, w': Message, goesOn: bool, env: Sending, k: nat, err: Err)
    requires w.WriteMessage? && Moves(w, w', goesOn, env, k, err) && 0 < env.room(0) && env.write(0) == Ok
    ensures w.offset < w'.offset && w.offset + Least(env.room(0), Least(|w.data| - w.offset, PIECE)) <= w'.offset
  {
    if 0 < k { assert FullPiece(w.data, w.offset, env, 0, 0); }
  }

  /** The send buffer has room for all that is left, or for as much as one tcp_write can take. */
  ghost predicate Roomy(data: seq<byte>, env: Sending) {
    (forall i :: env.room(i) >= Least(|data|, PIECE)) && (forall i :: env.write(i) == Ok) && env.output != NoRoute
  }

  /** Then a write is over at once, and all its bytes were given to tcp_write. */
  lemma {:induction false} AllAtOnce(n: Net, m: nat, data: seq<byte>, dontblock: bool, env: Sending)
    requires Valid(n) && m != 0 && m !in n.msgs && data != [] && Roomy(data, env)
    requires n.conn.pendingErr == Ok && n.conn.state == NONE && n.conn.pcb
    ensures var n' := AfterWrite(n, m, data, dontblock, env);
            && n'.conn.state == NONE && m in n'.msgs && n'.msgs[m] == WriteMessage(data, |data|, dontblock, Ok)
            && m in n'.threads.given && n'.threads.given[m] == data && m !in n'.threads.slept
  {
    var n1, w := n.(conn := n.conn.(pendingErr := Ok)), WriteMessage(data, 0, dontblock, BadValue);
    ConnReady(n, n1.conn, true);
    BegunReady(n1, m, w, WRITE);
    var n2 := Begun(n1, m, w, WRITE);
    var n3 := AfterMore(n2, env, false);
    var k, err := MoreMoves(n2, env, false);
    MoreReady(n2, env, false);
    AllRoomTaken(w, n3.msgs[m], n3.conn.currentMsg == m, env, k, err);
    WriteAnswers(n, m, data, dontblock, env);
    assert Given(n3, m) && data[..|data|] == data;
  }

  lemma {:induction false} AllRoomTaken(w: Message, w': Message, goesOn: bool, env: Sending, k: nat, err: Err)
    requires w.WriteMessage? && Moves(w, w', goesOn, env, k, err) && Roomy(w.data, env)
    ensures !goesOn && w'.offset == |w.data| && w'.err == Ok
  {
    assert env.room(k) >= Least(|w.data|, PIECE) && env.write(k) == Ok;
  }

  // ---- to the end ---------------------------------------------------------------------------------

  /** A callback that finds some room, with a tcp_write that takes it and no error but lack of memory. */
  ghost predicate Helps(env: Sending) {
    0 < env.room(0) && env.write(0) == Ok && (forall i :: env.write(i) == Ok || env.write(i) == OutOfMemory) && env.output != NoRoute
  }

  ghost predicate AllHelp(steps: seq<Step>)
    decreases |steps|
  {
    steps == [] || ((steps[0].Sent? || steps[0].Poll?) && Helps(steps[0].sending) && AllHelp(steps[1..]))
  }

  /** A blocking write that sleeps is over, with all its bytes given and its thread woken, after as
      many callbacks that find room as it has bytes left, whatever the room is. */
  lemma {:induction false} WriteCompletes(n: Net, steps: seq<Step>, n': Net, m: nat)
    requires Valid(n) && n.conn.state == WRITE && m == n.conn.currentMsg && m in n.msgs && n.msgs[m].WriteMessage? && !n.msgs[m].dontblock
    requires Run(n, steps, n') && AllHelp(steps) && |n.msgs[m].data| - n.msgs[m].offset <= |steps|
    ensures n'.conn.state == NONE && m in n'.msgs && n'.msgs[m].WriteMessage? && n'.msgs[m].err == Ok
    ensures m in n'.threads.given && n'.threads.given[m] == n.msgs[m].data
    ensures n'.threads.signals[m] == n.threads.signals[m] + 1
    decreases |steps|
  {
    var s, n1 := steps[0], After(n, steps[0]);
    assert n1 == AfterMore(n, s.sending, true);
    StepValid(n, s);
    MoreReady(n, s.sending, true);
    var k, err := MoreMoves(n, s.sending, true);
    GetsOn(n.msgs[m], n1.msgs[m], n1.conn.currentMsg == m, s.sending, k, err);
    assert s.sending.write(k) == Ok || s.sending.write(k) == OutOfMemory;
    if n1.conn.currentMsg == m {
      WriteCompletes(n1, steps[1..], n', m);
    } else {
      NothingToResume(n1, steps[1..], n');
      assert Given(n1, m) && n.msgs[m].data[..|n.msgs[m].data|] == n.msgs[m].data;
    }
  }

  lemma {:induction false} NothingToResume(n: Net, steps: seq<Step>, n': Net)
    requires Valid(n) && n.conn.state == NONE && Run(n, steps, n') && AllHelp(steps)
    ensures n' == n
    decreases |steps|
  {
    if steps != [] { NothingToResume(After(n, steps[0]), steps[1..], n'); }
  }
}
