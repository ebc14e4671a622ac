/** What a tick of the timers of lwip/core/tcp.c has to do, apart from the order of the steps. */
module TcpTimers {
  import opened Bytes
  import opened Lists
  import opened TcpPcbs

  const TCP_MAXRTX := 2
  const TCP_SYNMAXRTX := 2
  const SLOW_INTERVAL := 500
  const FIN_WAIT_TIMEOUT := 20000
  const SYN_RCVD_TIMEOUT := 20000
  const MSL := 60000
  /** An `unsigned long` of 64 bits, so that adding the idle time to it does not wrap around. */
  const KEEP_DURATION := 9 * 75000

  /** Ticks since the block was last used, by a 32-bit clock. */
  function Idle(b: Pcb, ticks: u32): u32 {
    Low32(ticks - b.conn.tmr)
  }

  /** It is right as long as the block was idle for less than 2^32 ticks, and a new stamp differs from the
      last 255 ones. */
  lemma {:induction false} ClocksCount(b: Pcb, since: nat, idle: nat, s: Stack, n: nat)
    requires b.conn.tmr == Low32(since) && idle < 0x1_0000_0000 && s.timerCtr == Low8(n)
    ensures Idle(b, Low32(since + idle)) == idle
    ensures NextStamp(s) == Low8(n + 1) && forall m :: 0 <= m <= n < m + 0xFF ==> NextStamp(s) != Low8(m)
  {
    Low32Minus(since + idle, since);
  }

  /** The reasons for tcp_slowtmr to give an active connection up. */
  predicate Expired(b: Pcb, ticks: u32) {
    || (b.state == SYN_SENT && b.conn.sender.nrtx >= TCP_SYNMAXRTX)
    || b.conn.sender.nrtx >= TCP_MAXRTX
    || (b.conn.sender.persistBackoff > 0 && b.conn.sender.persistProbe >= TCP_MAXRTX)
    || (b.state == FIN_WAIT_2 && b.conn.rxClosed && Idle(b, ticks) > FIN_WAIT_TIMEOUT / SLOW_INTERVAL)
    || KeepAliveFailed(b, ticks)
    || (b.state == SYN_RCVD && Idle(b, ticks) > SYN_RCVD_TIMEOUT / SLOW_INTERVAL)
    || (b.state == LAST_ACK && Idle(b, ticks) > 2 * MSL / SLOW_INTERVAL)
  }

  predicate KeepAliveFailed(b: Pcb, ticks: u32) {
    b.conn.keepAlive && (b.state == ESTABLISHED || b.state == CLOSE_WAIT) && Idle(b, ticks) > (b.conn.keepIdle + KEEP_DURATION) / SLOW_INTERVAL
  }

  /** A connection that need not retransmit too often expires by its idle time only: after 20 seconds
      for a handshake and for the peer's FIN, after two minutes for the last ACK, and after the time
      that keep-alive allows. */
  lemma {:induction false} ExpiryTimes(b: Pcb, ticks: u32)
    requires b.conn.sender.nrtx < 2 && (b.conn.sender.persistBackoff == 0 || b.conn.sender.persistProbe < 2)
    ensures Expired(b, ticks) <==>
              match b.state
              case SYN_RCVD => Idle(b, ticks) > 40
              case FIN_WAIT_2 => b.conn.rxClosed && Idle(b, ticks) > 40
              case LAST_ACK => Idle(b, ticks) > 240
              case ESTABLISHED => b.conn.keepAlive && Idle(b, ticks) > (b.conn.keepIdle + 675000) / 500
              case CLOSE_WAIT => b.conn.keepAlive && Idle(b, ticks) > (b.conn.keepIdle + 675000) / 500
              case _ => false
  {
  }

  /** Any connection that retransmitted, or probed a closed window, twice is given up. */
  lemma {:induction false} GivenUpAfterTwo(b: Pcb, ticks: u32)
    requires 2 <= b.conn.sender.nrtx || (0 < b.conn.sender.persistBackoff && 2 <= b.conn.sender.persistProbe)
    ensures Expired(b, ticks)
  {
  }

  /** A block has been in TIME_WAIT for long enough. */
  predicate WaitedEnough(b: Pcb, ticks: u32) {
    Idle(b, ticks) > 2 * MSL / SLOW_INTERVAL
  }

  /** That is two minutes. */
  lemma {:induction false} WaitsTwoMinutes(b: Pcb, ticks: u32)
    ensures WaitedEnough(b, ticks) <==> Idle(b, ticks) * 500 > 120000
  {
  }

  function NextStamp(s: Stack): byte {
    Low8((s.timerCtr as int) + 1)
  }

  function NextTick(s: Stack): u32 {
    Low32((s.ticks as int) + 1)
  }

  // ---- places in a list -----------------------------------------------------------------------

  /** What follows `p`: the list that starts at `p->next`. */
  function Behind(l: seq<Ptr>, p: Ptr): seq<Ptr> {
    if l == [] then [] else if l[0] == p then l[1..] else Behind(l[1..], p)
  }

  /** What comes up to `p`. */
  function UpTo(l: seq<Ptr>, p: Ptr): seq<Ptr> {
    if l == [] then [] else if l[0] == p then [p] else [l[0]] + UpTo(l[1..], p)
  }

  lemma {:induction false} PlaceIs(l: seq<Ptr>, k: nat)
    requires Distinct(l) && k < |l|
    ensures Behind(l, l[k]) == l[k + 1..] && UpTo(l, l[k]) == l[..k + 1] && Without(l, l[k]) == l[..k] + l[k + 1..]
    decreases k
  {
    if k == 0 {
      assert l[..1] == [l[0]] && l[..0] == [];
    } else {
      assert Distinct(l[1..]) && l[0] != l[k] == l[1..][k - 1];
      PlaceIs(l[1..], k - 1);
      assert l[1..][k..] == l[k + 1..] && [l[0]] + l[1..][..k] == l[..k + 1] && [l[0]] + l[1..][..k - 1] == l[..k];
      assert [l[0]] + (l[1..][..k - 1] + l[1..][k..]) == l[..k] + l[k + 1..];
    }
  }

  /** The walk stands at `pcb`, place `k` of the list; `prev` is the block before. */
  ghost predicate WalkAt(l: seq<Ptr>, k: nat, prev: Ptr, pcb: Ptr) {
    && k <= |l| && pcb == Head(l[k..]) && (pcb == NULL <==> k == |l|)
    && prev == if k == 0 then NULL else l[k - 1]
  }

  /** Unlinking by `prev` removes exactly `pcb`. */
  lemma {:induction false} UnlinkIs(l: seq<Ptr>, k: nat, prev: Ptr, pcb: Ptr)
    requires Distinct(l) && WalkAt(l, k, prev, pcb) && k < |l| && NULL !in l
    ensures (if prev != NULL then UpTo(l, prev) + Behind(l, pcb) else Behind(l, pcb)) == Without(l, pcb)
    ensures Without(l, pcb) == l[..k] + l[k + 1..] && Behind(l, pcb) == l[k + 1..] && (prev != NULL ==> l[0] != pcb) && (prev == NULL ==> l[0] == pcb)
    ensures WalkAt(Without(l, pcb), k, prev, Head(Behind(l, pcb)))
  {
    assert l[k..][0] == l[k] && l[k] == pcb;
    PlaceIs(l, k);
    if 0 < k {
      assert prev in l;
      PlaceIs(l, k - 1);
    }
    UnlinkedWalk(l, k, prev);
  }

  lemma {:induction false} UnlinkedWalk(l: seq<Ptr>, k: nat, prev: Ptr)
    requires k < |l| && NULL !in l && prev == if k == 0 then NULL else l[k - 1]
    ensures WalkAt(l[..k] + l[k + 1..], k, prev, Head(l[k + 1..]))
  {
    assert (l[..k] + l[k + 1..])[k..] == l[k + 1..];
    assert l[k + 1..] != [] ==> l[k + 1..][0] in l;
  }

  lemma {:induction false} StepIs(l: seq<Ptr>, k: nat, prev: Ptr, pcb: Ptr)
    requires Distinct(l) && WalkAt(l, k, prev, pcb) && k < |l| && NULL !in l
    ensures pcb == l[k] && WalkAt(l, k + 1, pcb, Head(Behind(l, pcb)))
  {
    PlaceIs(l, k);
    assert l[k..][0] == l[k];
    assert l[k + 1..] != [] ==> l[k + 1..][0] in l;
  }

  lemma {:induction false} WalkStarts(l: seq<Ptr>)
    requires NULL !in l
    ensures WalkAt(l, 0, NULL, Head(l))
  {
    assert l[0..] == l;
  }

  /** No list of a valid stack holds NULL. */
  lemma {:induction false} NoNull(s: Stack)
    requires Valid(s)
    ensures NULL !in s.active && NULL !in s.tw && NULL !in s.pcbs
  {
    assert NULL in s.pcbs ==> Placed(s, NULL);
  }

  // ---- the walk over the active blocks ----------------------------------------------------------

  /** The first `k` blocks of the list carry the stamp of this tick. */
  ghost predicate Dealt(s: Stack, k: nat) {
    k <= |s.active| && forall j :: 0 <= j < k ==> s.active[j] in s.pcbs && s.pcbs[s.active[j]].lastTimer == s.timerCtr
  }

  lemma {:induction false} DealtLater(s: Stack, s': Stack, k: nat)
    requires Valid(s') && Later(s, s') && s'.active == s.active && Dealt(s, k)
    ensures Dealt(s', k)
  {
    forall j | 0 <= j < k ensures s'.pcbs[s.active[j]].lastTimer == s'.timerCtr { assert Kept(s, s', s.active[j]); }
  }

  /** tcp_slowtmr keeps the blocks in TIME_WAIT that have not waited enough. */
  function StillWaiting(s: Stack, l: seq<Ptr>): seq<Ptr>
    requires forall p :: p in l ==> p in s.pcbs
  {
    if l == [] then [] else (if WaitedEnough(s.pcbs[l[0]], s.ticks) then [] else [l[0]]) + StillWaiting(s, l[1..])
  }

  lemma {:induction false} DealtGone(s: Stack, k: nat, p: Ptr)
    requires Valid(s) && Dealt(s, k) && k < |s.active| && p == s.active[k] && Without(s.active, p) == s.active[..k] + s.active[k + 1..]
    ensures Dealt(Gone(s, p).(changed := false), k)
  {
    forall j | 0 <= j < k ensures s.active[j] != p {}
  }

  /** The walk goes on if the list is as it was, and it may always start again. */
  lemma {:induction false} WalkLater(s: Stack, s': Stack, k: nat, prev: Ptr, pcb: Ptr)
    requires Dealt(s, k) && WalkAt(s.active, k, prev, pcb) && Valid(s') && Later(s, s')
    ensures s'.active == s.active ==> Dealt(s', k) && WalkAt(s'.active, k, prev, pcb)
    ensures Dealt(s', 0) && WalkAt(s'.active, 0, NULL, Head(s'.active))
  {
    NoNull(s');
    WalkStarts(s'.active);
    if s'.active == s.active { DealtLater(s, s', k); }
  }

  /** Fields of a block that no list depends on may be set at any time. */
  lemma {:induction false} Touch(s: Stack, p: Ptr, b: Pcb)
    requires Valid(s) && p in s.pcbs && Similar(s.pcbs[p], b) && b.lastTimer == s.pcbs[p].lastTimer && b.refused <= s.pcbs[p].refused
    ensures Valid(s.Set(p, b)) && Later(s, s.Set(p, b))
  {
    SimilarValid(s, p, b);
    SetLater(s, p, b);
  }

  lemma {:induction false} DealtStamped(s: Stack, k: nat, p: Ptr, b: Pcb)
    requires Valid(s) && Dealt(s, k) && k < |s.active| && p == s.active[k] && b.lastTimer == s.timerCtr
    ensures Dealt(s.Set(p, b), k + 1)
  {
    forall j | 0 <= j < k + 1 ensures s.active[j] in s.Set(p, b).pcbs && s.Set(p, b).pcbs[s.active[j]].lastTimer == s.timerCtr {}
  }

  lemma {:induction false} StillWaitingNext(s: Stack, l: seq<Ptr>, j: nat)
    requires j < |l| && forall p :: p in l ==> p in s.pcbs
    ensures StillWaiting(s, l[..j + 1]) == StillWaiting(s, l[..j]) + (if WaitedEnough(s.pcbs[l[j]], s.ticks) then [] else [l[j]])
    decreases j
  {
    assert l[..j + 1][0] == l[0] && l[..j + 1][1..] == l[1..][..j];
    if 0 < j {
      assert l[..j][1..] == l[1..][..j - 1];
      StillWaitingNext(s, l[1..], j - 1);
    } else {
      assert l[..0] == [] && l[1..][..0] == [];
    }
  }

  lemma {:induction false} StillWaitingIs(s: Stack, l: seq<Ptr>)
    requires forall p :: p in l ==> p in s.pcbs
    ensures forall p :: p in StillWaiting(s, l) <==> p in l && !WaitedEnough(s.pcbs[p], s.ticks)
    decreases |l|
  {
    if l != [] { StillWaitingIs(s, l[1..]); }
  }

  // ---- TIME_WAIT -------------------------------------------------------------------------------

  /** The end of tcp_slowtmr: blocks that were in TIME_WAIT for long enough, and only those, are gone. */
  function TimeWaited(s: Stack): Stack
    requires forall p :: p in s.tw ==> p in s.pcbs
  {
    s.(pcbs := map p | p in s.pcbs && !(p in s.tw && WaitedEnough(s.pcbs[p], s.ticks)) :: s.pcbs[p], tw := StillWaiting(s, s.tw))
  }

  /** The walk over the blocks in TIME_WAIT has dealt with `l[..j]` and kept `k` of them. */
  ghost predicate Sweeping(s0: Stack, s: Stack, l: seq<Ptr>, j: nat, k: nat) {
    && Valid(s) && j <= |l| && k <= |s.tw| && (forall p :: p in l ==> p in s0.pcbs)
    && s == s0.(pcbs := s.pcbs, tw := s.tw) && (forall p :: p in s.pcbs ==> p in s0.pcbs && s.pcbs[p] == s0.pcbs[p])
    && s.tw[..k] == StillWaiting(s0, l[..j]) && s.tw[k..] == l[j..]
    && (forall p :: p in s0.pcbs && p !in s.pcbs ==> p in l && WaitedEnough(s0.pcbs[p], s0.ticks))
  }

  lemma {:induction false} SweepKeeps(s0: Stack, s: Stack, l: seq<Ptr>, j: nat, k: nat)
    requires Sweeping(s0, s, l, j, k) && j < |l| && !WaitedEnough(s0.pcbs[l[j]], s0.ticks)
    ensures k < |s.tw| && s.tw[k] == l[j] && l[j] in s.pcbs && Sweeping(s0, s, l, j + 1, k + 1)
  {
    assert s.tw[k..][0] == l[j..][0];
    StillWaitingNext(s0, l, j);
    assert s.tw[..k + 1] == s.tw[..k] + [l[j]];
    assert s.tw[k + 1..] == s.tw[k..][1..] && l[j + 1..] == l[j..][1..];
  }

  lemma {:induction false} SweepDrops(s0: Stack, s: Stack, l: seq<Ptr>, j: nat, k: nat)
    requires Sweeping(s0, s, l, j, k) && j < |l| && WaitedEnough(s0.pcbs[l[j]], s0.ticks)
    ensures k < |s.tw| && s.tw[k] == l[j] && l[j] in s.pcbs && Sweeping(s0, Gone(s, l[j]), l, j + 1, k)
    ensures Later(s, Gone(s, l[j])) && Gone(s, l[j]).active == s.active
  {
    assert Placed(s, l[j]);
    OnOneList(s, l[j]);
    assert Gone(s, l[j]) == s.(pcbs := s.pcbs - {l[j]}, tw := Without(s.tw, l[j]));
    GoneLater(s, l[j], s.changed);
    assert s.tw[k..][0] == l[j..][0];
    GoneValid(s, l[j]);
    PlaceIs(s.tw, k);
    StillWaitingNext(s0, l, j);
    var s' := Gone(s, l[j]);
    assert s'.tw[..k] == s.tw[..k];
    assert s'.tw[k..] == s.tw[k + 1..] == s.tw[k..][1..] && l[j + 1..] == l[j..][1..];
  }

  lemma {:induction false} SweptAll(s0: Stack, s: Stack)
    requires Valid(s0) && Sweeping(s0, s, s0.tw, |s0.tw|, |s.tw|)
    ensures s == TimeWaited(s0)
  {
    StillWaitingIs(s0, s0.tw);
    assert s0.tw[..|s0.tw|] == s0.tw && s.tw[..|s.tw|] == s.tw;
    forall p | p in s0.pcbs ensures p in s.pcbs <==> !(p in s0.tw && WaitedEnough(s0.pcbs[p], s0.ticks)) {
      if p in s.pcbs { assert Placed(s, p) && Placed(s0, p); }
    }
    assert s.pcbs == TimeWaited(s0).pcbs;
  }

  lemma {:induction false} TimeWaitedValid(s: Stack)
    requires Valid(s)
    ensures Valid(TimeWaited(s))
  {
    var s' := TimeWaited(s);
    StillWaitingIs(s, s.tw);
    StillWaitingDistinct(s, s.tw);
    forall p | p in s'.active || p in s'.tw || p in s'.bound ensures p in s'.pcbs { assert Placed(s, p); }
    forall p | p in s'.pcbs ensures Placed(s', p) { assert Placed(s, p); }
    forall l | l in s'.listeners ensures Backlog(s', l) {
      assert Backlog(s, l);
      forall p | p in Waiting(s.pcbs, l) ensures p in s'.pcbs { assert Placed(s, p); }
      assert Waiting(s'.pcbs, l) == Waiting(s.pcbs, l);
    }
  }

  lemma {:induction false} StillWaitingDistinct(s: Stack, l: seq<Ptr>)
    requires Distinct(l) && forall p :: p in l ==> p in s.pcbs
    ensures Distinct(StillWaiting(s, l))
    decreases |l|
  {
    if l != [] {
      StillWaitingDistinct(s, l[1..]);
      StillWaitingIs(s, l[1..]);
      assert l[0] !in l[1..];
    }
  }
}
