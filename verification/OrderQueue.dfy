/** The intrusive doubly linked order queue: links live beside the slots, the last index is the sentinel. */
module OrderQueue {
  import opened Sequences

  /** The queue around its sentinel: position -1 and position |order| are the sentinel itself. */
  ghost function At(order: seq<nat>, sentinel: nat, i: int): nat {
    if 0 <= i < |order| then order[i] else sentinel
  }

  ghost predicate LinkedAt(prev: seq<nat>, next: seq<nat>, order: seq<nat>, i: int)
    requires |prev| == |next| > 0 && forall j :: 0 <= j < |order| ==> order[j] < |next|
  {
    var n := |next| - 1;
    next[At(order, n, i - 1)] == At(order, n, i) && prev[At(order, n, i)] == At(order, n, i - 1)
  }

  ghost predicate Linked(prev: seq<nat>, next: seq<nat>, order: seq<nat>) {
    && |prev| == |next| > 0
    && Distinct(order)
    && (forall i :: 0 <= i < |order| ==> order[i] < |next| - 1)
    && (forall i :: 0 <= i <= |order| ==> LinkedAt(prev, next, order, i))
  }

  lemma RemoveLinks(prev: seq<nat>, next: seq<nat>, order: seq<nat>, k: nat)
    requires Linked(prev, next, order) && k < |order|
    ensures var a, b := prev[order[k]], next[order[k]];
            a < |next| && b < |next| && Linked(prev[b := a], next[a := b], Without(order, k))
  {
    assert LinkedAt(prev, next, order, k) && LinkedAt(prev, next, order, k + 1);
    var a, b, n, order' := prev[order[k]], next[order[k]], |next| - 1, Without(order, k);
    var prev', next' := prev[b := a], next[a := b];
    WithoutElements(order, k);
    forall i | 0 <= i <= |order'| ensures LinkedAt(prev', next', order', i) {
      assert LinkedAt(prev, next, order, if i < k then i else i + 1);
      assert At(order', n, i) == At(order, n, if i < k then i else i + 1);
      assert At(order', n, i - 1) == At(order, n, if i - 1 < k then i - 1 else i);
    }
  }

  ghost function Inserted(order: seq<nat>, k: nat, x: nat): (r: seq<nat>)
    requires k <= |order|
    ensures |r| == |order| + 1
    ensures forall i :: 0 <= i < |r| ==> r[i] == if i < k then order[i] else if i == k then x else order[i - 1]
  {
    order[..k] + [x] + order[k..]
  }

  lemma InsertLinkAt(prev: seq<nat>, next: seq<nat>, order: seq<nat>, k: nat, x: nat, i: nat)
    requires Linked(prev, next, order) && k <= |order| && x < |next| - 1 && x !in order && i <= |order| + 1
    ensures var n := |next| - 1; var a, b := At(order, n, k - 1), At(order, n, k);
            LinkedAt(prev[x := a][b := x], next[x := b][a := x], Inserted(order, k, x), i)
  {
    var n, order' := |next| - 1, Inserted(order, k, x);
    if i < k {
      assert LinkedAt(prev, next, order, i);
      assert At(order', n, i) == At(order, n, i) && At(order', n, i - 1) == At(order, n, i - 1);
    } else if i > k + 1 {
      assert LinkedAt(prev, next, order, i - 1);
      assert At(order', n, i) == At(order, n, i - 1) && At(order', n, i - 1) == At(order, n, i - 2);
    } else if i == k {
      assert At(order', n, i) == x && At(order', n, i - 1) == At(order, n, k - 1);
    } else {
      assert At(order', n, i) == At(order, n, k) && At(order', n, i - 1) == x;
    }
  }

  /** Insertion of x between two neighbours. */
  lemma InsertLinks(prev: seq<nat>, next: seq<nat>, order: seq<nat>, k: nat, x: nat)
    requires Linked(prev, next, order) && k <= |order| && x < |next| - 1 && x !in order
    ensures var n := |next| - 1; var a, b := At(order, n, k - 1), At(order, n, k);
            Linked(prev[x := a][b := x], next[x := b][a := x], Inserted(order, k, x))
  {
    var n := |next| - 1;
    var a, b, order' := At(order, n, k - 1), At(order, n, k), Inserted(order, k, x);
    var prev', next' := prev[x := a][b := x], next[x := b][a := x];
    forall i | 0 <= i <= |order'| ensures LinkedAt(prev', next', order', i) {
      InsertLinkAt(prev, next, order, k, x, i);
    }
  }

  /** The element in slot x now lives in slot y: its links are copied and its neighbours repaired. */
  lemma RelocateLinks(prev: seq<nat>, next: seq<nat>, order: seq<nat>, k: nat, y: nat)
    requires Linked(prev, next, order) && k < |order| && y < |next| - 1 && y !in order
    ensures var a, b := prev[order[k]], next[order[k]];
            a < |next| && b < |next| && a != y && b != y &&
            Linked(prev[y := a][b := y], next[y := b][a := y], order[k := y])
  {
    assert LinkedAt(prev, next, order, k) && LinkedAt(prev, next, order, k + 1);
    var a, b, n, order' := prev[order[k]], next[order[k]], |next| - 1, order[k := y];
    var prev', next' := prev[y := a][b := y], next[y := b][a := y];
    forall i | 0 <= i <= |order'| ensures LinkedAt(prev', next', order', i) {
      assert LinkedAt(prev, next, order, i);
      assert At(order', n, i) == if i == k then y else At(order, n, i);
      assert At(order', n, i - 1) == if i - 1 == k then y else At(order, n, i - 1);
    }
  }

  class Queue {
    const prev: array<nat>
    const next: array<nat>
    ghost var order: seq<nat>

    ghost function Valid(): (b: bool)
      reads this, prev, next
      ensures b ==> prev != next && prev.Length == next.Length > 0
    {
      prev != next && prev.Length == next.Length > 0 && Linked(prev[..], next[..], order)
    }

    function Sentinel(): nat
      requires next.Length > 0
    {
      next.Length - 1
    }

    constructor (slots: nat)
      ensures Valid() && order == [] && next.Length == slots + 1 && fresh(prev) && fresh(next)
    {
      prev := new nat[slots + 1](_ => slots);
      next := new nat[slots + 1](_ => slots);
      order := [];
    }

    /** Reset the sentinel; links left behind in the slots do not matter. */
    method Init()
      requires Valid()
      modifies this, prev, next
      ensures Valid() && order == []
    {
      prev[Sentinel()], next[Sentinel()] := Sentinel(), Sentinel();
      order := [];
    }

    /** Where the k-th element links to: the read access iteration and eviction rely on. */
    lemma Neighbours(k: nat)
      requires Valid() && k <= |order|
      ensures var n := next.Length - 1;
              next[At(order, n, k - 1)] == At(order, n, k) && prev[At(order, n, k)] == At(order, n, k - 1)
    {
      assert LinkedAt(prev[..], next[..], order, k);
    }

    lemma Before(k: nat) returns (p: nat)
      requires Valid() && k < |order| && order[k] < prev.Length
      ensures p == prev[order[k]] == At(order, next.Length - 1, k - 1)
    {
      Neighbours(k);
      p := prev[order[k]];
    }

    method Remove(x: nat, ghost k: nat)
      requires Valid() && k < |order| && order[k] == x
      modifies this, prev, next
      ensures Valid() && order == Without(old(order), k)
    {
      RemoveLinks(prev[..], next[..], order, k);
      ghost var a, b := prev[x], next[x];
      next[prev[x]] := next[x];
      prev[next[x]] := prev[x];
      order := Without(order, k);
      assert prev[..] == old(prev[..])[b := a] && next[..] == old(next[..])[a := b];
    }

    method InsertTail(x: nat)
      requires Valid() && x < Sentinel() && x !in order
      modifies this, prev, next
      ensures Valid() && order == old(order) + [x]
    {
      var n := Sentinel();
      Neighbours(|order|);
      InsertLinks(prev[..], next[..], order, |order|, x);
      ghost var a := prev[n];
      prev[x] := prev[n];
      next[prev[x]] := x;
      next[x] := n;
      prev[n] := x;
      assert Inserted(order, |order|, x) == order + [x];
      order := order + [x];
      assert prev[..] == old(prev[..])[x := a][n := x] && next[..] == old(next[..])[x := n][a := x];
    }

    method InsertHead(x: nat)
      requires Valid() && x < Sentinel() && x !in order
      modifies this, prev, next
      ensures Valid() && order == [x] + old(order)
    {
      var n := Sentinel();
      Neighbours(0);
      InsertLinks(prev[..], next[..], order, 0, x);
      ghost var b := next[n];
      next[x] := next[n];
      prev[next[x]] := x;
      prev[x] := n;
      next[n] := x;
      assert Inserted(order, 0, x) == [x] + order;
      order := [x] + order;
      assert prev[..] == old(prev[..])[x := n][b := x] && next[..] == old(next[..])[x := b][n := x];
    }

    /** An element moved from slot x to slot y: copy its links, then repair its neighbours. */
    method Relocate(x: nat, y: nat, ghost k: nat)
      requires Valid() && k < |order| && order[k] == x
      requires y < Sentinel() && y !in order
      modifies this, prev, next
      ensures Valid() && order == old(order)[k := y]
    {
      RelocateLinks(prev[..], next[..], order, k, y);
      ghost var a, b := prev[x], next[x];
      prev[y], next[y] := prev[x], next[x];
      next[prev[y]] := y;
      prev[next[y]] := y;
      order := order[k := y];
      assert prev[..] == old(prev[..])[y := a][b := y] && next[..] == old(next[..])[y := b][a := y];
    }
  }
}
