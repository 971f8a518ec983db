/** The generator of the table sizes (gen/table.c). */
module PrimeSizes {
  import opened Primes

  /** Floor square root, by adding up the odd numbers. */
  method Isqrt(n: nat) returns (l: nat)
    ensures l * l <= n < (l + 1) * (l + 1)
  {
    l := 0;
    var a, d := 1, 3;
    while a <= n
      invariant a == (l + 1) * (l + 1) && d == 2 * l + 3 && l * l <= n
    {
      a := a + d;
      d := d + 2;
      l := l + 1;
    }
  }

  /** A number without a divisor up to its square root has no divisor at all. */
  lemma NoDivisorAboveRoot(n: int, root: nat)
    requires n > 3 && n < (root + 1) * (root + 1)
    requires forall d :: 2 <= d <= root ==> !Divides(d, n)
    ensures IsPrime(n)
  {
    forall d | 2 <= d < n ensures !Divides(d, n) {
      if Divides(d, n) {
        var e := n / d;
        assert n == d * e == e * d;
        DividesProduct(e, d);
        if d > root {
          if e > root { MulMonotone(root + 1, d, root + 1, e); }
          if e <= 1 { MulMonotone(d, d, e, 1); }
        }
      }
    }
  }

  lemma MulMonotone(a: nat, b: nat, c: nat, d: nat)
    requires a <= b && c <= d
    ensures a * c <= b * d
  {
    assert b * d - a * c == b * (d - c) + (b - a) * c;
  }

  /** Once 2 and 3 are ruled out, of six consecutive candidates only 6k - 1 and 6k + 1 need a test. */
  lemma SixWheel(n: int, i: int, d: int)
    requires i % 6 == 5 && i > 0 && !Divides(2, n) && !Divides(3, n)
    requires !Divides(i, n) && !Divides(i + 2, n) && i <= d < i + 6
    ensures !Divides(d, n)
  {
    hide Divides;
    if Divides(d, n) {
      if d == i + 4 {
        assert d == 3 * (d / 3);
        DividesProduct(3, d / 3);
        DividesTransitive(3, d, n);
      } else if d != i && d != i + 2 {
        assert d == 2 * (d / 2);
        DividesProduct(2, d / 2);
        DividesTransitive(2, d, n);
      }
    }
  }

  lemma SmallPrimes(n: nat)
    requires n <= 3
    ensures IsPrime(n) <==> n > 1
  {
    assert n == 3 ==> !Divides(2, n);
  }

  lemma HasDivisor(n: int, d: int)
    requires 2 <= d < n && Divides(d, n)
    ensures !IsPrime(n)
  {
  }

  /** A trial divisor up to the square root, or the number two above it, is a proper divisor. */
  lemma TrialDivisor(n: int, root: int, i: int)
    requires 5 <= i <= root && root * root <= n
    ensures i + 2 < n
  {
    MulMonotone(5, i, i, i);
    MulMonotone(i, root, i, root);
  }

  /** Trial division by 2, 3 and the numbers next to the multiples of six. */
  method TestPrime(n: nat) returns (prime: bool)
    ensures prime <==> IsPrime(n)
  {
    hide Divides, IsPrime;
    if n <= 3 {
      SmallPrimes(n);
      return n > 1;
    }
    if Divides(2, n) || Divides(3, n) {
      HasDivisor(n, if Divides(2, n) then 2 else 3);
      return false;
    }
    var sqrt := Isqrt(n);
    var i := 5;
    assert !Divides(4, n) by {
      DividesProduct(2, 2);
      if Divides(4, n) { DividesTransitive(2, 4, n); }
    }
    while i <= sqrt
      invariant i % 6 == 5 && i >= 5
      invariant forall d :: 2 <= d < i ==> !Divides(d, n)
    {
      if Divides(i, n) || Divides(i + 2, n) {
        TrialDivisor(n, sqrt, i);
        HasDivisor(n, if Divides(i, n) then i else i + 2);
        return false;
      }
      forall d | i <= d < i + 6 ensures !Divides(d, n) { SixWheel(n, i, d); }
      i := i + 6;
    }
    NoDivisorAboveRoot(n, sqrt);
    return true;
  }

  method NextPrime(n: nat) returns (p: nat)
    ensures LeastPrime(p, n)
  {
    ghost var bound := AlwaysAnotherPrime(n);
    p := n;
    var prime := TestPrime(p);
    while !prime
      invariant n <= p <= bound
      invariant prime <==> IsPrime(p)
      invariant forall m :: n <= m < p ==> !IsPrime(m)
      decreases bound - p
    {
      p := p + 1;
      prime := TestPrime(p);
    }
  }

  /** The sizes the generator visits before rounding up: each a third above the one before. */
  function Growth(k: nat): (size: nat)
    ensures size >= 3
  {
    if k == 0 then 3 else Growth(k - 1) + Growth(k - 1) / 3
  }

  /** The size loop: exactly the least primes at or above the growth steps below the limit, strictly ascending. */
  method GenerateSizes(limit: nat) returns (sizes: seq<nat>)
    ensures AscendingPrimes(sizes)
    ensures forall p: nat :: p in sizes <==> exists k: nat :: Growth(k) < limit && LeastPrime(p, Growth(k))
    ensures limit > 3 ==> |sizes| > 0 && sizes[0] == 3
  {
    hide Divides, IsPrime;
    sizes := [];
    var previous := 0;
    var size := 3;
    ghost var k := 0;
    while size < limit
      invariant size == Growth(k)
      invariant AscendingPrimes(sizes)
      invariant if sizes == [] then k == 0 && previous == 0
                else previous == sizes[|sizes| - 1] && k > 0 && LeastPrime(previous, Growth(k - 1)) && sizes[0] == 3
      invariant forall p: nat :: p in sizes ==> exists j: nat :: j < k && Growth(j) < limit && LeastPrime(p, Growth(j))
      invariant forall j: nat, p: nat :: j < k && LeastPrime(p, Growth(j)) ==> p in sizes
      invariant forall j: nat :: j < k ==> Growth(j) < limit
      decreases limit - size
    {
      var prime := NextPrime(size);
      GrowthMonotone(k);
      assert previous <= prime;
      if k == 0 { ThreeIsLeast(prime); }
      ghost var before := sizes;
      if prime != previous {
        sizes := sizes + [prime];
        previous := prime;
      }
      assert prime in sizes;
      forall j: nat, p: nat | j < k + 1 && LeastPrime(p, Growth(j)) ensures p in sizes {
        if j == k { LeastPrimeUnique(p, prime, size); } else { assert p in before; }
      }
      k := k + 1;
      size := size + size / 3;
    }
    forall j: nat, p: nat | Growth(j) < limit && LeastPrime(p, Growth(j)) ensures p in sizes {
      if j >= k { GrowthIncreasing(k, j); }
    }
  }

  /** Each size is the one before times four thirds, rounded down. */
  lemma GrowthByThird(k: nat)
    ensures Growth(0) == 3 && 3 * Growth(k + 1) <= 4 * Growth(k) < 3 * Growth(k + 1) + 3
  {
  }

  lemma ThreeIsLeast(p: int)
    requires LeastPrime(p, 3)
    ensures p == 3
  {
    assert !Divides(2, 3);
    assert IsPrime(3);
  }

  lemma GrowthMonotone(k: nat)
    ensures k > 0 ==> Growth(k - 1) < Growth(k)
  {
  }

  lemma {:induction false} GrowthIncreasing(i: nat, j: nat)
    requires i <= j
    ensures Growth(i) <= Growth(j)
  {
    if i < j { GrowthIncreasing(i, j - 1); }
  }
}
