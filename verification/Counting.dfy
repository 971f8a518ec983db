/** Sizes of finite sets of numbers, and the pigeonhole principle. */
module Counting {

  ghost function Below(n: nat): (s: set<nat>)
    ensures forall i: nat :: i in s <==> i < n
    ensures |s| == n
  {
    if n == 0 then {} else Below(n - 1) + {n - 1}
  }

  lemma SubsetOfSameSize(a: set<nat>, b: set<nat>)
    requires a <= b && |a| == |b|
    ensures a == b
  {
    if x :| x in b && x !in a {
      assert a <= b - {x};
      SubsetSize(a, b - {x});
    }
  }

  lemma {:induction false} SubsetSize(a: set<nat>, b: set<nat>)
    requires a <= b
    ensures |a| <= |b|
  {
    if x :| x in a {
      SubsetSize(a - {x}, b - {x});
    }
  }

  ghost function Image(f: nat -> nat, n: nat): (s: set<nat>)
    ensures forall v: nat :: v in s <==> exists i: nat :: i < n && f(i) == v
  {
    set i: nat | i < n :: f(i)
  }

  lemma OneMoreImage(f: nat -> nat, n: nat)
    ensures Image(f, n + 1) == Image(f, n) + {f(n)}
  {
  }

  lemma {:induction false} ImageSize(f: nat -> nat, n: nat)
    requires forall i: nat, j: nat :: i < j < n ==> f(i) != f(j)
    ensures |Image(f, n)| == n
  {
    hide Image;
    if n == 0 {
      assert Image(f, 0) == {};
    } else {
      ImageSize(f, n - 1);
      OneMoreImage(f, n - 1);
      var v := f(n - 1);
      assert v !in Image(f, n - 1) by {
        if i: nat :| i < n - 1 && f(i) == v { assert false; }
      }
    }
  }

  /** Of more than m numbers two are mapped to the same number below m. */
  lemma Pigeonhole(f: nat -> nat, n: nat, m: nat) returns (i: nat, j: nat)
    requires n > m && forall k: nat :: k < n ==> f(k) < m
    ensures i < j < n && f(i) == f(j)
  {
    if forall i: nat, j: nat :: i < j < n ==> f(i) != f(j) {
      ImageSize(f, n);
      SubsetSize(Image(f, n), Below(m));
    }
    i, j :| i < j < n && f(i) == f(j);
  }
}
