/** Choosing the number of slots and the load limit (src/lws_table.c). */
module TableSizes {
  import opened Wrappers
  import opened Primes

  const SIZE_MAX: nat := 0xFFFF_FFFF_FFFF_FFFF

  /** The sizes a table can take: ascending primes, small enough that adding two slot indices cannot overflow. */
  ghost predicate ValidSizes(sizes: seq<nat>) {
    AscendingPrimes(sizes) && |sizes| > 0 && 2 * sizes[|sizes| - 1] <= SIZE_MAX
  }

  /** About 87.5 percent. */
  function Load(alloc: nat): nat {
    alloc / 2 + alloc / 4 + alloc / 8
  }

  ghost predicate LeastSize(sizes: seq<nat>, size: nat, r: Option<nat>) {
    match r
    case None => forall s :: s in sizes ==> s < size
    case Some(s) => s in sizes && s >= size && forall s' :: s' in sizes && s' >= size ==> s <= s'
  }

  /** Binary search for the least size that is large enough. */
  method FindSize(sizes: seq<nat>, size: nat) returns (r: Option<nat>)
    requires AscendingPrimes(sizes)
    ensures LeastSize(sizes, size, r)
  {
    var lower, upper := 0, |sizes| - 1;
    while lower <= upper
      invariant 0 <= lower <= upper + 1 <= |sizes|
      invariant forall i :: 0 <= i < lower ==> sizes[i] < size
      invariant forall i :: upper < i < |sizes| ==> sizes[i] >= size
    {
      var mid := (lower + upper) / 2;
      if sizes[mid] < size {
        lower := mid + 1;
      } else {
        upper := mid - 1;
      }
    }
    if lower >= |sizes| {
      return None;
    }
    return Some(sizes[lower]);
  }

  /** A table always keeps a free slot, and a larger size always raises the load limit. */
  lemma LoadBounds(alloc: nat)
    requires alloc >= 3
    ensures 1 <= Load(alloc) < alloc
  {
  }

  /** The load limit is at most 87.5 percent of the slots, and falls short of that by less than three. */
  lemma LoadFactor(alloc: nat)
    ensures 1000 * Load(alloc) <= 875 * alloc && 875 * alloc < 1000 * (Load(alloc) + 3)
  {
    assert alloc == 8 * (alloc / 8) + alloc % 8;
  }

  lemma LoadGrows(sizes: seq<nat>, a: nat, b: nat)
    requires AscendingPrimes(sizes) && a in sizes && b in sizes && a < b
    ensures Load(a) < Load(b)
  {
    OddPrimeGap(a, b);
  }

  lemma Largest(sizes: seq<nat>, size: nat, r: Option<nat>)
    requires ValidSizes(sizes) && LeastSize(sizes, size, r)
    ensures r.Some? <==> size <= sizes[|sizes| - 1]
  {
    assert sizes[|sizes| - 1] in sizes;
  }

  /** What a rehash relies on when it moves to a larger size. */
  lemma GrownSize(sizes: seq<nat>, alloc: nat, size: nat, grown: nat)
    requires ValidSizes(sizes) && alloc in sizes && size > alloc && LeastSize(sizes, size, Some(grown))
    ensures grown in sizes && grown >= 3 && IsPrime(grown) && 2 * grown <= SIZE_MAX
    ensures Load(alloc) < Load(grown) < grown
  {
    LoadGrows(sizes, alloc, grown);
    LoadBounds(grown);
    assert forall s :: s in sizes ==> s <= sizes[|sizes| - 1];
  }

  /** The number of slots asked for on creation. */
  function Requested(sizes: seq<nat>, load: nat): nat
    requires |sizes| > 0
  {
    load + if load < sizes[|sizes| - 1] then load / 7 + 3 else 0
  }

  /** A created table can take the requested load without rehashing, unless the load is the largest size itself. */
  lemma CreatedLoad(sizes: seq<nat>, load: nat, alloc: nat)
    requires ValidSizes(sizes) && LeastSize(sizes, Requested(sizes, load), Some(alloc))
    ensures Load(alloc) >= load <==> load < sizes[|sizes| - 1]
  {
    var largest := sizes[|sizes| - 1];
    assert alloc <= largest;
    LoadBounds(alloc);
    if load < largest {
      assert alloc >= load + load / 7 + 3;
      assert 8 * Load(alloc) >= 7 * alloc - 17;
    }
  }

  /** The failing input: asked for a load of the largest size, a table takes that size and its limit is too low. */
  lemma LargestLoadNotTaken(sizes: seq<nat>)
    requires ValidSizes(sizes)
    ensures var largest := sizes[|sizes| - 1];
            LeastSize(sizes, Requested(sizes, largest), Some(largest)) && Load(largest) < largest
  {
    var largest := sizes[|sizes| - 1];
    assert largest in sizes;
    LoadBounds(largest);
  }
}
