/** Double hashing over a prime number of slots (src/lws_table.c). */
module Probing {
  import opened Counting
  import opened Primes

  function Step(hash: nat, m: nat): (q: nat)
    requires m >= 3
    ensures 0 < q < m
  {
    hash % (m - 2) + 1
  }

  function Advance(h: int, q: int, m: int, k: int): (i: nat)
    requires m > 0
    ensures i < m
  {
    (h + k * q) % m
  }

  /** The slot a probe sequence visits after k steps. */
  function ProbeAt(hash: nat, m: nat, k: nat): (i: nat)
    requires m >= 3
    ensures i < m
  {
    Advance(hash % m, Step(hash, m), m, k)
  }

  lemma ModOfSum(a: int, b: int, m: int)
    requires m > 0
    ensures (a % m + b) % m == (a + b) % m
  {
    ModUnique(a + b, m, a / m + (a % m + b) / m, (a % m + b) % m);
  }

  lemma SameRemainder(a: int, b: int, m: int)
    requires m > 0 && a % m == b % m
    ensures Divides(m, a - b)
  {
    assert a - b == m * (a / m) - m * (b / m) == m * (a / m - b / m);
    DividesProduct(m, a / m - b / m);
  }

  lemma StepsAddUp(h: int, q: int, m: int, k: int, n: int)
    requires m > 0
    ensures Advance(Advance(h, q, m, k), q, m, n) == Advance(h, q, m, k + n)
  {
    ModOfSum(h + k * q, n * q, m);
    assert h + k * q + n * q == h + (k + n) * q;
  }

  lemma ProbeStart(hash: nat, m: nat)
    requires m >= 3
    ensures ProbeAt(hash, m, 0) == hash % m
  {
    ModOfSum(hash, 0, m);
  }

  /** Probing n steps further from the k-th probe arrives at the (k + n)-th. */
  lemma ProbeSum(hash: nat, m: nat, k: nat, n: nat)
    requires m >= 3
    ensures Advance(ProbeAt(hash, m, k), Step(hash, m), m, n) == ProbeAt(hash, m, k + n)
  {
    StepsAddUp(hash % m, Step(hash, m), m, k, n);
  }

  lemma ProbeNext(hash: nat, m: nat, k: nat)
    requires m >= 3
    ensures (ProbeAt(hash, m, k) + Step(hash, m)) % m == ProbeAt(hash, m, k + 1)
  {
    ProbeSum(hash, m, k, 1);
  }

  lemma ProbePeriodic(hash: nat, m: nat, k: nat)
    requires m >= 3
    ensures ProbeAt(hash, m, k + m) == ProbeAt(hash, m, k)
  {
    var q, h := Step(hash, m), ProbeAt(hash, m, k);
    ProbeSum(hash, m, k, m);
    ModUnique(h + m * q, m, q, h);
  }

  /** No slot is visited twice within m probes. */
  lemma ProbesDiffer(hash: nat, m: nat, j: nat, k: nat)
    requires IsPrime(m) && m >= 3 && j < k < m
    ensures ProbeAt(hash, m, j) != ProbeAt(hash, m, k)
  {
    if ProbeAt(hash, m, j) == ProbeAt(hash, m, k) {
      var h, q := hash % m, Step(hash, m);
      SameRemainder(h + k * q, h + j * q, m);
      assert (h + k * q) - (h + j * q) == (k - j) * q;
      EuclidsLemma(m, k - j, q);
    }
  }

  ghost function Visited(hash: nat, m: nat, n: nat): (s: set<nat>)
    requires m >= 3
    ensures forall i: nat :: i in s <==> exists k: nat :: k < n && ProbeAt(hash, m, k) == i
  {
    set k: nat | k < n :: ProbeAt(hash, m, k)
  }

  lemma VisitedSize(hash: nat, m: nat, n: nat)
    requires IsPrime(m) && m >= 3 && n <= m
    ensures |Visited(hash, m, n)| == n
  {
    var probe: nat -> nat := k => ProbeAt(hash, m, k);
    forall i: nat, j: nat | i < j < n ensures probe(i) != probe(j) { ProbesDiffer(hash, m, i, j); }
    ImageSize(probe, n);
    forall i: nat ensures i in Visited(hash, m, n) <==> i in Image(probe, n) {
      if k: nat :| k < n && ProbeAt(hash, m, k) == i { assert probe(k) == i; }
    }
    assert Visited(hash, m, n) == Image(probe, n);
  }

  /** Full cycle: with a prime number of slots every probe sequence is a permutation of all slots. */
  lemma FullCycle(hash: nat, m: nat)
    requires IsPrime(m) && m >= 3
    ensures Visited(hash, m, m) == Below(m)
    ensures forall j: nat, k: nat :: j < k < m ==> ProbeAt(hash, m, j) != ProbeAt(hash, m, k)
  {
    VisitedSize(hash, m, m);
    SubsetOfSameSize(Visited(hash, m, m), Below(m));
    forall j: nat, k: nat | j < k < m ensures ProbeAt(hash, m, j) != ProbeAt(hash, m, k) {
      ProbesDiffer(hash, m, j, k);
    }
  }

  /** How many steps of its probe sequence a hash needs to arrive at slot i. */
  ghost function Distance(hash: nat, m: nat, i: nat): (k: nat)
    requires IsPrime(m) && m >= 3 && i < m
    ensures k < m && ProbeAt(hash, m, k) == i
  {
    FullCycle(hash, m);
    assert i in Visited(hash, m, m);
    var k: nat :| k < m && ProbeAt(hash, m, k) == i;
    k
  }

  lemma DistanceOfProbe(hash: nat, m: nat, k: nat)
    requires IsPrime(m) && m >= 3 && k < m
    ensures Distance(hash, m, ProbeAt(hash, m, k)) == k
  {
    var d := Distance(hash, m, ProbeAt(hash, m, k));
    if d < k { ProbesDiffer(hash, m, d, k); }
    if k < d { ProbesDiffer(hash, m, k, d); }
  }

  /** A probe sequence is back at its start after exactly m steps. */
  lemma BackAtStart(hash: nat, m: nat, k: nat)
    requires IsPrime(m) && m >= 3 && 0 < k <= m
    ensures ProbeAt(hash, m, k) == ProbeAt(hash, m, 0) <==> k == m
  {
    if k < m {
      ProbesDiffer(hash, m, 0, k);
    } else {
      ProbePeriodic(hash, m, 0);
    }
  }
}
