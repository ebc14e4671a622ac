/** Singly linked lists as the C code keeps them: a pointer is a number, 0 is NULL, and the `next`
    field of every allocated node is kept in a map.

    A list is a sequence of nodes that following `next` visits; the lemmas say how lists are cut,
    joined and left alone. */
module Lists {

  type Ptr = nat

  const NULL: Ptr := 0

  /** Following `next` from `p` visits exactly `ps` and then meets NULL. */
  ghost predicate IsList(next: map<Ptr, Ptr>, p: Ptr, ps: seq<Ptr>)
    decreases |ps|
  {
    if ps == [] then p == NULL
    else p != NULL && p == ps[0] && p in next && IsList(next, next[p], ps[1..])
  }

  /** The walk from `p` comes to an end. */
  ghost predicate Ends(next: map<Ptr, Ptr>, p: Ptr) {
    exists ps :: IsList(next, p, ps)
  }

  ghost predicate Distinct(ps: seq<Ptr>) {
    forall i, j :: 0 <= i < j < |ps| ==> ps[i] != ps[j]
  }

  function Head(ps: seq<Ptr>): Ptr {
    if ps == [] then NULL else ps[0]
  }

  lemma {:induction false} ListUnique(next: map<Ptr, Ptr>, p: Ptr, ps: seq<Ptr>, qs: seq<Ptr>)
    requires IsList(next, p, ps) && IsList(next, p, qs)
    ensures ps == qs
    decreases |ps|
  {
    if ps != [] {
      ListUnique(next, next[p], ps[1..], qs[1..]);
      assert ps == [ps[0]] + ps[1..] && qs == [qs[0]] + qs[1..];
    }
  }

  lemma {:induction false} ListSuffix(next: map<Ptr, Ptr>, p: Ptr, ps: seq<Ptr>, k: nat)
    requires IsList(next, p, ps) && k <= |ps|
    ensures IsList(next, Head(ps[k..]), ps[k..])
    decreases k
  {
    if k == 0 {
      assert ps[0..] == ps;
    } else {
      ListSuffix(next, next[p], ps[1..], k - 1);
      assert ps[1..][k - 1..] == ps[k..];
    }
  }

  /** What a list says of the node at position `k`. */
  lemma {:induction false} ListAt(next: map<Ptr, Ptr>, p: Ptr, ps: seq<Ptr>, k: nat)
    requires IsList(next, p, ps) && k < |ps|
    ensures ps[k] != NULL && ps[k] in next
    ensures next[ps[k]] == if k + 1 < |ps| then ps[k + 1] else NULL
  {
    ListSuffix(next, p, ps, k);
    assert ps[k..][1..] == ps[k + 1..];
  }

  lemma {:induction false} ListNodes(next: map<Ptr, Ptr>, p: Ptr, ps: seq<Ptr>)
    requires IsList(next, p, ps)
    ensures forall x :: x in ps ==> x != NULL && x in next
    ensures NULL !in ps
    ensures p == Head(ps)
  {
    forall x | x in ps ensures x != NULL && x in next {
      var k :| 0 <= k < |ps| && ps[k] == x;
      ListAt(next, p, ps, k);
    }
  }

  /** A list that ends meets no node twice. */
  lemma {:induction false} ListDistinct(next: map<Ptr, Ptr>, p: Ptr, ps: seq<Ptr>)
    requires IsList(next, p, ps)
    ensures Distinct(ps)
  {
    forall i, j | 0 <= i < j < |ps| ensures ps[i] != ps[j] {
      ListSuffix(next, p, ps, i);
      ListSuffix(next, p, ps, j);
      if ps[i] == ps[j] {
        ListUnique(next, ps[i], ps[i..], ps[j..]);
      }
    }
  }

  lemma {:induction false} PartsDisjoint(next: map<Ptr, Ptr>, p: Ptr, ps: seq<Ptr>, k: nat)
    requires IsList(next, p, ps) && k <= |ps|
    ensures forall x :: x in ps[k..] ==> x !in ps[..k]
  {
    ListDistinct(next, p, ps);
  }

  /** Nodes outside a list may change. */
  lemma {:induction false} ListFrame(next: map<Ptr, Ptr>, next': map<Ptr, Ptr>, p: Ptr, ps: seq<Ptr>)
    requires IsList(next, p, ps)
    requires forall x :: x in ps ==> x in next && x in next' && next'[x] == next[x]
    ensures IsList(next', p, ps)
    decreases |ps|
  {
    if ps != [] {
      ListFrame(next, next', next[p], ps[1..]);
    }
  }

  /** Linking the last node of one list to another list. */
  lemma {:induction false} ListAppend(next: map<Ptr, Ptr>, p: Ptr, ps: seq<Ptr>, q: Ptr, qs: seq<Ptr>)
    requires IsList(next, p, ps) && IsList(next, q, qs) && ps != [] && ps[|ps| - 1] !in qs
    ensures IsList(next[ps[|ps| - 1] := q], p, ps + qs)
    decreases |ps|
  {
    var last := ps[|ps| - 1];
    var next' := next[last := q];
    if |ps| == 1 {
      assert (ps + qs)[1..] == qs;
      ListFrame(next, next', q, qs) by { ListNodes(next, q, qs); }
      assert IsList(next', next'[p], qs);
    } else {
      ListAppend(next, next[p], ps[1..], q, qs);
      ListDistinct(next, p, ps);
      assert (ps + qs)[1..] == ps[1..] + qs;
    }
  }

  /** Cutting a list behind its first `k` nodes. */
  lemma {:induction false} ListCut(next: map<Ptr, Ptr>, p: Ptr, ps: seq<Ptr>, k: nat)
    requires IsList(next, p, ps) && 0 < k <= |ps|
    ensures var next' := next[ps[k - 1] := NULL];
            IsList(next', p, ps[..k]) && IsList(next', Head(ps[k..]), ps[k..])
    decreases k
  {
    var next' := next[ps[k - 1] := NULL];
    ListDistinct(next, p, ps);
    ListSuffix(next, p, ps, k);
    ListNodes(next, Head(ps[k..]), ps[k..]);
    ListFrame(next, next', Head(ps[k..]), ps[k..]);
    if k == 1 {
      assert ps[..1][1..] == [];
    } else {
      ListCut(next, next[p], ps[1..], k - 1);
      assert ps[1..][..k - 1] == ps[..k][1..];
    }
  }

  /** Two lists that meet have the same rest from there on. */
  lemma {:induction false} ListsMeet(next: map<Ptr, Ptr>, p: Ptr, ps: seq<Ptr>, q: Ptr, qs: seq<Ptr>, i: nat, j: nat)
    requires IsList(next, p, ps) && IsList(next, q, qs) && i < |ps| && j < |qs| && ps[i] == qs[j]
    ensures ps[i..] == qs[j..]
  {
    ListSuffix(next, p, ps, i);
    ListSuffix(next, q, qs, j);
    ListUnique(next, ps[i], ps[i..], qs[j..]);
  }
}
