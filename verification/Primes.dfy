/** Number theory behind the table sizes: divisibility, primes, Euclid's lemma and the infinitude of primes. */
module Primes {

  predicate Divides(d: int, n: int)
    requires d > 0
  {
    n % d == 0
  }

  ghost predicate IsPrime(n: int) {
    2 <= n && forall d :: 2 <= d < n ==> !Divides(d, n)
  }

  /** p is the least prime that is not below n. */
  ghost predicate LeastPrime(p: int, n: int) {
    n <= p && IsPrime(p) && forall m :: n <= m < p ==> !IsPrime(m)
  }

  /** What the table asks of its sizes, and what the generator delivers. */
  ghost predicate AscendingPrimes(sizes: seq<nat>) {
    && (forall i :: 0 <= i < |sizes| ==> sizes[i] >= 3 && IsPrime(sizes[i]))
    && (forall i, j :: 0 <= i < j < |sizes| ==> sizes[i] < sizes[j])
  }

  lemma LeastPrimeUnique(p: int, q: int, n: int)
    requires LeastPrime(p, n) && LeastPrime(q, n)
    ensures p == q
  {
  }

  lemma ScaleBounds(d: int, e: int)
    requires d > 0
    ensures e >= 1 ==> d * e >= d
    ensures e <= -1 ==> d * e <= -d
  {
    assert d * e == d + d * (e - 1) == -d + d * (e + 1);
  }

  lemma ModUnique(n: int, d: int, a: int, r: int)
    requires d > 0 && n == d * a + r && 0 <= r < d
    ensures n % d == r && n / d == a
  {
    var a', r' := n / d, n % d;
    assert d * a - d * a' == d * (a - a');
    ScaleBounds(d, a - a');
  }

  lemma DividesProduct(d: int, a: int)
    requires d > 0
    ensures Divides(d, d * a)
  {
    ModUnique(d * a, d, a, 0);
  }

  lemma DividesTransitive(k: int, d: int, n: int)
    requires k > 0 && d > 0 && Divides(k, d) && Divides(d, n)
    ensures Divides(k, n)
  {
    var a, b := d / k, n / d;
    assert n == d * b == (k * a) * b == k * (a * b);
    DividesProduct(k, a * b);
  }

  lemma DividesDifference(d: int, a: int, b: int)
    requires d > 0 && Divides(d, a) && Divides(d, b)
    ensures Divides(d, a - b)
  {
    assert a - b == d * (a / d) - d * (b / d) == d * (a / d - b / d);
    DividesProduct(d, a / d - b / d);
  }

  lemma DividesMultiple(d: int, a: int, x: int)
    requires d > 0 && Divides(d, a)
    ensures Divides(d, a * x)
  {
    assert a * x == (d * (a / d)) * x == d * ((a / d) * x);
    DividesProduct(d, (a / d) * x);
  }

  /** Euclid's lemma in the form probing needs: a prime divides no product of two smaller positive numbers. */
  lemma {:induction false} EuclidsLemma(m: int, a: int, b: int)
    requires IsPrime(m) && 0 < a < m && 0 < b < m
    ensures !Divides(m, a * b)
    decreases a
  {
    if a == 1 {
      assert a * b == b;
      ModUnique(b, m, 0, b);
    } else if Divides(m, a * b) {
      assert !Divides(a, m);
      var r := m % a;
      assert r * b == m * b - (a * b) * (m / a) by {
        assert r == m - a * (m / a);
        assert r * b == (m - a * (m / a)) * b == m * b - (a * (m / a)) * b;
        assert (a * (m / a)) * b == (a * b) * (m / a);
      }
      DividesProduct(m, b);
      DividesMultiple(m, a * b, m / a);
      DividesDifference(m, m * b, (a * b) * (m / a));
      EuclidsLemma(m, r, b);
    }
  }

  /** Two odd primes are never neighbours. */
  lemma OddPrimeGap(a: int, b: int)
    requires IsPrime(a) && IsPrime(b) && 3 <= a < b
    ensures a % 2 == 1 && b % 2 == 1 && a + 2 <= b
  {
    assert !Divides(2, a) && !Divides(2, b);
  }

  /** The least divisor above one of n is a prime. */
  lemma {:induction false} SmallestDivisor(n: int, from: int) returns (p: int)
    requires 2 <= from <= n && forall d :: 2 <= d < from ==> !Divides(d, n)
    ensures from <= p <= n && IsPrime(p) && Divides(p, n)
    decreases n - from
  {
    if Divides(from, n) {
      p := from;
      forall d | 2 <= d < p ensures !Divides(d, p) {
        if Divides(d, p) { DividesTransitive(d, p, n); }
      }
    } else {
      if from == n { ModUnique(n, n, 1, 0); }
      p := SmallestDivisor(n, from + 1);
    }
  }

  function Factorial(n: nat): (f: int)
    ensures f >= 1
  {
    if n == 0 then 1 else n * Factorial(n - 1)
  }

  lemma {:induction false} DividesFactorial(d: int, n: nat)
    requires 1 <= d <= n
    ensures Divides(d, Factorial(n))
  {
    if d == n {
      DividesProduct(n, Factorial(n - 1));
    } else {
      DividesFactorial(d, n - 1);
      DividesMultiple(d, Factorial(n - 1), n);
      assert Factorial(n) == Factorial(n - 1) * n;
    }
  }

  /** Euclid: above every number there is a prime, so a search for the next one ends. */
  lemma AlwaysAnotherPrime(n: nat) returns (p: int)
    ensures IsPrime(p) && p > n
  {
    var m := Factorial(n) + 1;
    p := SmallestDivisor(m, 2);
    if p <= n {
      DividesFactorial(p, n);
      DividesDifference(p, m, Factorial(n));
      assert Divides(p, 1);
      ModUnique(1, p, 0, 1);
    }
  }
}
