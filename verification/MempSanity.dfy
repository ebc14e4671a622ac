/** The sanity check of lwip/core/memp.c. */
module MempSanity {
  // memp_sanity is Floyd's cycle-finding algorithm, on any graph of `next` links.

  import opened Lists

  /** Links from the head on stay among `nodes`, or lead to NULL. */
  ghost predicate Closed(next: map<Ptr, Ptr>, head: Ptr, nodes: set<Ptr>) {
    && NULL !in next && (head == NULL || head in nodes)
    && forall p :: p in nodes ==> p in next && (next[p] == NULL || next[p] in nodes)
  }

  /** The node reached after `n` links; NULL behind the end. */
  ghost function Iter(next: map<Ptr, Ptr>, p: Ptr, n: nat): Ptr
    decreases n
  {
    if n == 0 || p !in next then (if p in next then p else NULL) else Iter(next, next[p], n - 1)
  }

  lemma {:induction false} IterStep(next: map<Ptr, Ptr>, p: Ptr, n: nat, nodes: set<Ptr>)
    requires Closed(next, p, nodes)
    ensures var q := Iter(next, p, n);
            && (q == NULL || q in nodes)
            && Iter(next, p, n + 1) == if q == NULL then NULL else next[q]
    decreases n
  {
    if p in next {
      if n == 0 {
        assert Iter(next, p, 1) == Iter(next, next[p], 0);
      } else {
        IterStep(next, next[p], n - 1, nodes);
      }
    }
  }

  lemma {:induction false} IterPlus(next: map<Ptr, Ptr>, p: Ptr, n: nat, k: nat, nodes: set<Ptr>)
    requires Closed(next, p, nodes)
    ensures Iter(next, p, n + k) == Iter(next, Iter(next, p, n), k)
    decreases n
  {
    if n == 0 || p !in next {
      assert p !in next ==> Iter(next, NULL, k) == NULL;
    } else {
      IterPlus(next, next[p], n - 1, k, nodes);
    }
  }

  // ---- lists that end -------------------------------------------------------------------------

  lemma {:induction false} IterOfList(next: map<Ptr, Ptr>, p: Ptr, ps: seq<Ptr>, n: nat)
    requires IsList(next, p, ps) && NULL !in next
    ensures Iter(next, p, n) == if n < |ps| then ps[n] else NULL
    decreases n
  {
    if ps != [] && 0 < n { IterOfList(next, next[p], ps[1..], n - 1); }
  }

  lemma {:induction false} EndsAt(next: map<Ptr, Ptr>, p: Ptr, n: nat, nodes: set<Ptr>)
    requires Closed(next, p, nodes) && Iter(next, p, n) == NULL
    ensures Ends(next, p)
    decreases n
  {
    if p == NULL {
      assert IsList(next, NULL, []);
    } else {
      EndsAt(next, next[p], n - 1, nodes);
      var ps :| IsList(next, next[p], ps);
      assert ([p] + ps)[1..] == ps;
      assert IsList(next, p, [p] + ps);
    }
  }

  /** On a list that ends the two pointers never meet. */
  lemma {:induction false} NoMeeting(next: map<Ptr, Ptr>, head: Ptr, k: nat, nodes: set<Ptr>)
    requires Closed(next, head, nodes) && Ends(next, head) && Iter(next, head, 2 * k + 1) != NULL
    ensures Iter(next, head, k) != Iter(next, head, 2 * k + 1)
  {
    var ps :| IsList(next, head, ps);
    IterOfList(next, head, ps, k);
    IterOfList(next, head, ps, 2 * k + 1);
    ListDistinct(next, head, ps);
  }

  // ---- lists that do not ---------------------------------------------------------------------------

  /** The first `n` nodes of a walk that comes to no node twice. */
  ghost function Walk(next: map<Ptr, Ptr>, p: Ptr, n: nat): seq<Ptr> {
    if n == 0 then [] else Walk(next, p, n - 1) + [Iter(next, p, n - 1)]
  }

  lemma {:induction false} WalkIs(next: map<Ptr, Ptr>, p: Ptr, n: nat)
    ensures |Walk(next, p, n)| == n && forall i :: 0 <= i < n ==> Walk(next, p, n)[i] == Iter(next, p, i)
    decreases n
  {
    if 0 < n { WalkIs(next, p, n - 1); }
  }

  lemma {:induction false} DistinctFits(s: seq<Ptr>, a: set<Ptr>)
    requires (forall i, j :: 0 <= i < j < |s| ==> s[i] != s[j]) && forall x :: x in s ==> x in a
    ensures |s| <= |a|
    decreases |s|
  {
    if s != [] {
      var n := |s| - 1;
      forall x | x in s[..n] ensures x in a - {s[n]} {}
      DistinctFits(s[..n], a - {s[n]});
    }
  }

  /** A walk that does not end comes to some node twice. */
  lemma {:induction false} Repeats(next: map<Ptr, Ptr>, head: Ptr, nodes: set<Ptr>) returns (i: nat, j: nat)
    requires Closed(next, head, nodes) && !Ends(next, head)
    ensures i < j && Iter(next, head, i) == Iter(next, head, j)
  {
    var n := |nodes| + 1;
    var w := Walk(next, head, n);
    WalkIs(next, head, n);
    forall k | 0 <= k < n ensures w[k] in nodes {
      if Iter(next, head, k) == NULL { EndsAt(next, head, k, nodes); }
      IterStep(next, head, k, nodes);
    }
    if forall a, b :: 0 <= a < b < |w| ==> w[a] != w[b] {
      DistinctFits(w, nodes);
      assert false;
    }
    i, j :| 0 <= i < j < |w| && w[i] == w[j];
  }

  lemma {:induction false} Periodic(next: map<Ptr, Ptr>, head: Ptr, i: nat, j: nat, n: nat, m: nat, nodes: set<Ptr>)
    requires Closed(next, head, nodes) && i < j && Iter(next, head, i) == Iter(next, head, j) && i <= n
    ensures Iter(next, head, n + m * (j - i)) == Iter(next, head, n)
    decreases m
  {
    if 0 < m {
      var l := j - i;
      Periodic(next, head, i, j, n, m - 1, nodes);
      var n' := n + (m - 1) * l;
      assert (m - 1) * l >= 0 && n + m * l == n' + l;
      IterPlus(next, head, i, n' - i, nodes);
      IterPlus(next, head, j, n' - i, nodes);
      assert j + (n' - i) == n' + l;
    }
  }

  /** So the pointers meet. */
  lemma {:induction false} Meeting(next: map<Ptr, Ptr>, head: Ptr, nodes: set<Ptr>) returns (k: nat)
    requires Closed(next, head, nodes) && !Ends(next, head)
    ensures Iter(next, head, k) == Iter(next, head, 2 * k + 1)
  {
    var i, j := Repeats(next, head, nodes);
    var l := j - i;
    k := l * (i + 1) - 1;
    assert l * (i + 1) >= i + 1;
    Periodic(next, head, i, j, k, i + 1, nodes);
    assert (i + 1) * l == k + 1;
  }

  /** When the loop is over at the latest. */
  lemma {:induction false} LoopBound(next: map<Ptr, Ptr>, head: Ptr, nodes: set<Ptr>) returns (last: nat)
    requires Closed(next, head, nodes)
    ensures Iter(next, head, last) == Iter(next, head, 2 * last + 1) || Iter(next, head, 2 * last + 1) == NULL
  {
    if Ends(next, head) {
      var ps :| IsList(next, head, ps);
      last := |ps|;
      IterOfList(next, head, ps, 2 * last + 1);
    } else {
      last := Meeting(next, head, nodes);
    }
  }

  lemma {:induction false} Onward(next: map<Ptr, Ptr>, head: Ptr, k: nat, nodes: set<Ptr>)
    requires Closed(next, head, nodes)
    ensures var t, h := Iter(next, head, k), Iter(next, head, 2 * k + 1);
            && (t == NULL || t in nodes) && (h == NULL || h in nodes)
            && (t != NULL ==> Iter(next, head, k + 1) == next[t])
            && (h != NULL ==> Iter(next, head, 2 * k + 3) == if next[h] == NULL then NULL else next[next[h]])
  {
    IterStep(next, head, k, nodes);
    IterStep(next, head, 2 * k + 1, nodes);
    IterStep(next, head, 2 * k + 2, nodes);
  }

  /** memp_sanity ends on any list, and is true exactly if the list has no cycle. */
  method Sanity(next: map<Ptr, Ptr>, tab: Ptr, ghost nodes: set<Ptr>) returns (sane: bool)
    requires Closed(next, tab, nodes)
    ensures sane <==> Ends(next, tab)
  {
    var t := tab;
    if t != NULL {
      var h := next[t];
      ghost var last := LoopBound(next, tab, nodes);
      ghost var k: nat := 0;
      IterStep(next, tab, 0, nodes);
      Onward(next, tab, 0, nodes);
      while t != NULL && h != NULL
        invariant t == Iter(next, tab, k) && h == Iter(next, tab, 2 * k + 1) && k <= last
        decreases last - k
      {
        if t == h {
          if Ends(next, tab) { NoMeeting(next, tab, k, nodes); }
          return false;
        }
        Onward(next, tab, k, nodes);
        t := next[t];
        h := if next[h] != NULL then next[next[h]] else NULL;
        k := k + 1;
      }
      EndsAt(next, tab, if t == NULL then k else 2 * k + 1, nodes);
      return true;
    }
    assert IsList(next, NULL, []);
    return true;
  }
}
