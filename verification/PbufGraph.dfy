/** Reference counts over an arbitrary sharing graph of pbufs (lwip/core/pbuf.c). */
module PbufGraph {
  // `owners` says how many references to a pbuf are kept outside the pbufs themselves: by
  // the application, a queue, a protocol control block or the running function.

  import opened Lists

  ghost function Preds(next: map<Ptr, Ptr>, p: Ptr): set<Ptr> {
    set q | q in next && next[q] == p
  }

  /** The references to `p`: those of owners, of predecessors and of the running loop. */
  ghost function References(next: map<Ptr, Ptr>, owners: map<Ptr, nat>, pending: Ptr, p: Ptr): nat
    requires p in owners
  {
    owners[p] + |Preds(next, p)| + (if p == pending then 1 else 0)
  }

  /** What holds of every pbuf: its link leads nowhere or to an allocated pbuf, the chain from
      it ends, and `ref` counts its references. */
  ghost predicate At(next: map<Ptr, Ptr>, ref: map<Ptr, nat>, owners: map<Ptr, nat>, pending: Ptr, p: Ptr)
    requires p in next && p in ref && p in owners
  {
    && (next[p] == NULL || next[p] in next)
    && 0 < ref[p] == References(next, owners, pending, p)
    && Ends(next, p)
  }

  /** Every pbuf is counted once for each owner and each predecessor; one more reference,
      to `pending`, is in the hands of a loop that is about to give it up. */
  ghost predicate CountedBut(next: map<Ptr, Ptr>, ref: map<Ptr, nat>, owners: map<Ptr, nat>, pending: Ptr) {
    && ref.Keys == next.Keys && owners.Keys == next.Keys && NULL !in next
    && (pending == NULL || pending in next)
    && (forall p {:trigger At(next, ref, owners, pending, p)} :: p in next ==> At(next, ref, owners, pending, p))
  }

  /** Counts exact, nothing unreferenced left over, no dangling links, no cycles. */
  ghost predicate Counted(next: map<Ptr, Ptr>, ref: map<Ptr, nat>, owners: map<Ptr, nat>) {
    CountedBut(next, ref, owners, NULL)
  }

  /** No pointer in an owner's hands leads, however far it is followed, to freed memory. */
  lemma {:induction false} NothingDangles(next: map<Ptr, Ptr>, ref: map<Ptr, nat>, owners: map<Ptr, nat>, p: Ptr)
    requires Counted(next, ref, owners) && p in next && 0 < owners[p]
    ensures exists ps :: IsList(next, p, ps) && forall q :: q in ps ==> q in next && 0 < ref[q]
  {
    assert At(next, ref, owners, NULL, p);
    var ps :| IsList(next, p, ps);
    ListNodes(next, p, ps);
    forall q | q in ps ensures q in next && 0 < ref[q] {
      assert At(next, ref, owners, NULL, q);
    }
  }

  // ---- pbuf_free ---------------------------------------------------------------

  /** How many pbufs at the front of the chain have no other reference. */
  ghost function Unshared(ref: map<Ptr, nat>, ps: seq<Ptr>): (k: nat)
    ensures k <= |ps|
    ensures forall i :: 0 <= i < k ==> ps[i] in ref && ref[ps[i]] == 1
    ensures k < |ps| ==> ps[k] !in ref || ref[ps[k]] != 1
  {
    if ps == [] || ps[0] !in ref || ref[ps[0]] != 1 then 0 else
      var k := Unshared(ref, ps[1..]);
      assert forall i :: 0 < i < k + 1 ==> ps[i] == ps[1..][i - 1];
      k + 1
  }

  ghost function NodeSet(ps: seq<Ptr>): set<Ptr> {
    set p | p in ps
  }

  /** Giving up one reference to the head of the chain `ps`. */
  ghost function RefAfterFree(ref: map<Ptr, nat>, ps: seq<Ptr>): map<Ptr, nat> {
    var k := Unshared(ref, ps);
    var left := ref - NodeSet(ps[..k]);
    if k < |ps| && ps[k] in left && 0 < left[ps[k]] then left[ps[k] := left[ps[k]] - 1] else left
  }

  /** Removing an unreferenced pbuf hands its reference to its successor on. */
  lemma {:induction false} RemoveUnreferenced(next: map<Ptr, Ptr>, ref: map<Ptr, nat>, owners: map<Ptr, nat>, p: Ptr)
    requires CountedBut(next, ref, owners, p) && p in next && ref[p] == 1 && next[p] != p
    ensures CountedBut(next - {p}, ref - {p}, owners - {p}, next[p])
    ensures owners[p] == 0 && Preds(next, p) == {}
  {
    assert At(next, ref, owners, p, p);
    assert Preds(next, p) == {};
    var next', q := next - {p}, next[p];
    forall x | x in next' ensures At(next', ref - {p}, owners - {p}, q, x) {
      assert At(next, ref, owners, p, x);
      assert x !in Preds(next, p);
      assert Preds(next, x) == if x == q then Preds(next', x) + {p} else Preds(next', x);
      StillEnds(next, p, x);
    }
  }

  /** Removing a pbuf nobody points to cuts no other chain. */
  lemma {:induction false} StillEnds(next: map<Ptr, Ptr>, p: Ptr, x: Ptr)
    requires Preds(next, p) == {} && p in next && Ends(next, x) && x != p
    ensures Ends(next - {p}, x)
  {
    var ps :| IsList(next, x, ps);
    ListNodes(next, x, ps);
    forall k | 0 < k < |ps| ensures ps[k] != p {
      ListAt(next, x, ps, k - 1);
      assert ps[k - 1] in Preds(next, ps[k]);
    }
    ListFrame(next, next - {p}, x, ps);
  }

  /** The whole loop of pbuf_free keeps the counts. */
  lemma {:induction false} FreeKeepsCounts(next: map<Ptr, Ptr>, ref: map<Ptr, nat>, owners: map<Ptr, nat>, p: Ptr, ps: seq<Ptr>)
    requires CountedBut(next, ref, owners, p) && IsList(next, p, ps)
    ensures var gone := NodeSet(ps[..Unshared(ref, ps)]);
            && Counted(next - gone, RefAfterFree(ref, ps), owners - gone)
            && (forall x :: x in gone ==> x in owners && owners[x] == 0)
    decreases |ps|
  {
    if ps == [] || ref[p] != 1 {
      assert NodeSet(ps[..Unshared(ref, ps)]) == {};
      assert next - {} == next && ref - {} == ref && owners - {} == owners;
      if ps != [] { DropReference(next, ref, owners, p); }
    } else {
      ListDistinct(next, p, ps);
      ListAt(next, p, ps, 0);
      RemoveUnreferenced(next, ref, owners, p);
      ListNodes(next, p, ps);
      ListFrame(next, next - {p}, next[p], ps[1..]);
      FreeKeepsCounts(next - {p}, ref - {p}, owners - {p}, next[p], ps[1..]);
      FreeStep(next, ref, owners, ps);
    }
  }

  lemma {:induction false} DropReference(next: map<Ptr, Ptr>, ref: map<Ptr, nat>, owners: map<Ptr, nat>, p: Ptr)
    requires CountedBut(next, ref, owners, p) && p in next && ref[p] != 1
    ensures 0 < ref[p] && Counted(next, ref[p := ref[p] - 1], owners)
  {
    assert At(next, ref, owners, p, p);
    var ref' := ref[p := ref[p] - 1];
    forall x | x in next ensures At(next, ref', owners, NULL, x) {
      assert At(next, ref, owners, p, x);
    }
  }

  /** Freeing the chain `ps` when its head goes is freeing the rest without the head. */
  lemma {:induction false} FreeStep(next: map<Ptr, Ptr>, ref: map<Ptr, nat>, owners: map<Ptr, nat>, ps: seq<Ptr>)
    requires ps != [] && ps[0] !in ps[1..] && (forall x :: x in ps ==> x in ref) && ref[ps[0]] == 1
    ensures var p, k, gone' := ps[0], Unshared(ref, ps), NodeSet(ps[1..][..Unshared(ref - {ps[0]}, ps[1..])]);
            && (forall x :: x in ps[1..] ==> x in ref - {p})
            && NodeSet(ps[..k]) == {p} + gone'
            && next - NodeSet(ps[..k]) == next - {p} - gone'
            && owners - NodeSet(ps[..k]) == owners - {p} - gone'
            && RefAfterFree(ref, ps) == RefAfterFree(ref - {p}, ps[1..])
  {
    var p, k := ps[0], Unshared(ref, ps);
    UnsharedFrame(ref, ref - {p}, ps[1..]);
    assert ps[..k] == [p] + ps[1..][..k - 1];
    assert ref - NodeSet(ps[..k]) == ref - {p} - NodeSet(ps[1..][..k - 1]);
    assert k < |ps| ==> ps[k] == ps[1..][k - 1];
  }

  lemma {:induction false} UnsharedFrame(ref: map<Ptr, nat>, ref': map<Ptr, nat>, ps: seq<Ptr>)
    requires forall x :: x in ps ==> x in ref && x in ref' && ref[x] == ref'[x]
    ensures Unshared(ref, ps) == Unshared(ref', ps)
    decreases |ps|
  {
    if ps != [] { UnsharedFrame(ref, ref', ps[1..]); }
  }

  /** One round of the loop of pbuf_free: the pbufs `ps[..i]` are gone, `ps[i]` is looked at. */
  lemma {:induction false} FreeRound<T>(next: map<Ptr, Ptr>, ref: map<Ptr, nat>, m: map<Ptr, T>, p: Ptr, ps: seq<Ptr>, i: nat)
    requires IsList(next, p, ps) && i < |ps| && i <= Unshared(ref, ps) && ref.Keys == next.Keys && m.Keys == next.Keys
    ensures var gone, gone', x := NodeSet(ps[..i]), NodeSet(ps[..i + 1]), ps[i];
            && x in next && x !in gone && gone' == gone + {x}
            && next - gone - {x} == next - gone' && m - gone - {x} == m - gone'
            && (ref - gone)[x := 0] - {x} == ref - gone'
            && next[x] == Head(ps[i + 1..]) && (next[x] == NULL <==> i + 1 == |ps|)
            && (i < Unshared(ref, ps) <==> ref[x] == 1)
            && (i == Unshared(ref, ps) && 0 < ref[x] ==> RefAfterFree(ref, ps) == (ref - gone)[x := ref[x] - 1])
  {
    ListAt(next, p, ps, i);
    ListDistinct(next, p, ps);
    ListNodes(next, p, ps);
    var x := ps[i];
    assert ps[..i + 1] == ps[..i] + [x];
    assert x !in ps[..i];
  }

  // ---- the other steps -----------------------------------------------------------

  /** A reference in the hands of a loop counts like one of an owner. */
  lemma {:induction false} PendingIsOwner(next: map<Ptr, Ptr>, ref: map<Ptr, nat>, owners: map<Ptr, nat>, p: Ptr)
    requires p in next && p in owners && NULL !in next
    ensures CountedBut(next, ref, owners, p) <==> Counted(next, ref, owners[p := owners[p] + 1])
  {
    var more := owners[p := owners[p] + 1];
    assert more.Keys == owners.Keys;
    if CountedBut(next, ref, owners, p) {
      forall x | x in next ensures At(next, ref, more, NULL, x) { assert At(next, ref, owners, p, x); }
    }
    if CountedBut(next, ref, more, NULL) {
      forall x | x in next ensures At(next, ref, owners, p, x) { assert At(next, ref, more, NULL, x); }
    }
  }

  /** pbuf_ref */
  lemma {:induction false} RefKeepsCounts(next: map<Ptr, Ptr>, ref: map<Ptr, nat>, owners: map<Ptr, nat>, p: Ptr)
    requires Counted(next, ref, owners) && p in next
    ensures Counted(next, ref[p := ref[p] + 1], owners[p := owners[p] + 1])
  {
    var ref', owners' := ref[p := ref[p] + 1], owners[p := owners[p] + 1];
    forall x | x in next ensures At(next, ref', owners', NULL, x) {
      assert At(next, ref, owners, NULL, x);
    }
  }

  /** Linking the end of a chain to `t`: the reference an owner held becomes the link. */
  lemma {:induction false} LinkKeepsCounts(next: map<Ptr, Ptr>, ref: map<Ptr, nat>, owners: map<Ptr, nat>, last: Ptr, t: Ptr, ts: seq<Ptr>)
    requires Counted(next, ref, owners) && last in next && next[last] == NULL && t in next && 0 < owners[t]
    requires IsList(next, t, ts) && last !in ts
    ensures Counted(next[last := t], ref, owners[t := owners[t] - 1])
  {
    var next', owners' := next[last := t], owners[t := owners[t] - 1];
    forall x | x in next' ensures At(next', ref, owners', NULL, x) {
      assert At(next, ref, owners, NULL, x);
      PredsOfUpdate(next, last, t, x);
      LinkedEnds(next, last, t, ts, x);
    }
  }

  lemma {:induction false} PredsOfUpdate(next: map<Ptr, Ptr>, p: Ptr, q: Ptr, x: Ptr)
    requires p in next
    ensures |Preds(next[p := q], x)| == |Preds(next, x)| + (if x == q then 1 else 0) - (if x == next[p] then 1 else 0)
  {
    var without := Preds(next, x) - {p};
    assert Preds(next[p := q], x) - {p} == without;
    assert Preds(next, x) == if x == next[p] then without + {p} else without;
    assert Preds(next[p := q], x) == if x == q then without + {p} else without;
  }

  lemma {:induction false} LinkedEnds(next: map<Ptr, Ptr>, last: Ptr, t: Ptr, ts: seq<Ptr>, x: Ptr)
    requires Ends(next, x) && IsList(next, t, ts) && last in next && next[last] == NULL && last !in ts
    ensures Ends(next[last := t], x)
  {
    var xs :| IsList(next, x, xs);
    if last in xs {
      LinkedList(next, x, xs, last, t, ts);
    } else {
      ListNodes(next, x, xs);
      ListFrame(next, next[last := t], x, xs);
    }
  }

  lemma {:induction false} LinkedList(next: map<Ptr, Ptr>, x: Ptr, xs: seq<Ptr>, last: Ptr, t: Ptr, ts: seq<Ptr>)
    requires IsList(next, x, xs) && IsList(next, t, ts) && last in xs && last in next && next[last] == NULL && last !in ts
    ensures IsList(next[last := t], x, xs + ts)
  {
    var i :| 0 <= i < |xs| && xs[i] == last;
    ListNodes(next, x, xs);
    ListAt(next, x, xs, i);
    assert i == |xs| - 1;
    ListAppend(next, x, xs, t, ts);
  }

  /** Cutting the link behind `p` leaves a reference to the rest with the caller. */
  lemma {:induction false} CutKeepsCounts(next: map<Ptr, Ptr>, ref: map<Ptr, nat>, owners: map<Ptr, nat>, p: Ptr)
    requires Counted(next, ref, owners) && p in next && next[p] != NULL
    ensures next[p] in next && Counted(next[p := NULL], ref, owners[next[p] := owners[next[p]] + 1])
  {
    assert At(next, ref, owners, NULL, p);
    var next', q := next[p := NULL], next[p];
    var owners' := owners[q := owners[q] + 1];
    forall x | x in next' ensures At(next', ref, owners', NULL, x) {
      assert At(next, ref, owners, NULL, x);
      PredsOfUpdate(next, p, NULL, x);
      CutEnds(next, p, x);
    }
  }

  lemma {:induction false} CutEnds(next: map<Ptr, Ptr>, p: Ptr, x: Ptr)
    requires Ends(next, x) && p in next
    ensures Ends(next[p := NULL], x)
  {
    var xs :| IsList(next, x, xs);
    if p in xs {
      var i :| 0 <= i < |xs| && xs[i] == p;
      ListCut(next, x, xs, i + 1);
    } else {
      ListNodes(next, x, xs);
      ListFrame(next, next[p := NULL], x, xs);
    }
  }

  /** pbuf_free by an owner of `p`. */
  lemma {:induction false} FreeByOwner(next: map<Ptr, Ptr>, ref: map<Ptr, nat>, owners: map<Ptr, nat>, p: Ptr, ps: seq<Ptr>)
    requires Counted(next, ref, owners) && p in next && 0 < owners[p] && IsList(next, p, ps)
    ensures var gone, owners' := NodeSet(ps[..Unshared(ref, ps)]), owners[p := owners[p] - 1];
            && Counted(next - gone, RefAfterFree(ref, ps), owners' - gone)
            && CountedBut(next, ref, owners', p)
            && (forall x :: x in gone ==> x in owners && owners'[x] == 0)
  {
    var owners' := owners[p := owners[p] - 1];
    assert owners'[p := owners'[p] + 1] == owners;
    PendingIsOwner(next, ref, owners', p);
    ListNodes(next, p, ps);
    FreeKeepsCounts(next, ref, owners', p, ps);
  }

  /** A pbuf that pbuf_free deallocates had no reference but the one given up, or the link
      of a pbuf that was deallocated just before. */
  lemma {:induction false} GoneWasUnreferenced(next: map<Ptr, Ptr>, ref: map<Ptr, nat>, owners: map<Ptr, nat>, p: Ptr, ps: seq<Ptr>, i: nat)
    requires Counted(next, ref, owners) && p in next && 0 < owners[p] && IsList(next, p, ps) && i < Unshared(ref, ps)
    ensures ps[i] in next && owners[ps[i]] == (if i == 0 then 1 else 0)
    ensures Preds(next, ps[i]) == if i == 0 then {} else {ps[i - 1]}
  {
    ListNodes(next, p, ps);
    ListDistinct(next, p, ps);
    var x := ps[i];
    assert At(next, ref, owners, NULL, x);
    if 0 < i {
      ListAt(next, p, ps, i - 1);
      OnlyMember(Preds(next, x), ps[i - 1]);
    }
  }

  lemma {:induction false} OnlyMember(s: set<Ptr>, x: Ptr)
    requires x in s
    ensures 1 <= |s| && (|s| == 1 ==> s == {x})
  {
    assert |s - {x}| == |s| - 1;
    if |s| == 1 {
      assert s - {x} == {};
      assert s == {x};
    }
  }
}
