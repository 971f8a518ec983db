/** The slot array as a value: findability, Brent's placement and its cost (src/lws_table.c). */
module Slots {
  import opened Primes
  import opened Probing
  import opened Keys

  datatype Slot<V> = Unused | Deleted | Live(key: Key, value: V, hash: nat, time: int)

  ghost predicate PrimeSize(m: nat) {
    m >= 3 && IsPrime(m)
  }

  /** The first n probes of a hash see no unused slot, so a search does not stop among them. */
  ghost predicate Trail<V>(slots: seq<Slot<V>>, hash: nat, n: nat)
    requires |slots| >= 3
  {
    forall j: nat :: j < n ==> !slots[ProbeAt(hash, |slots|, j)].Unused?
  }

  /** The first n probes of a hash all see live slots. */
  ghost predicate Crowded<V>(slots: seq<Slot<V>>, hash: nat, n: nat)
    requires |slots| >= 3
  {
    forall j: nat :: j < n ==> slots[ProbeAt(hash, |slots|, j)].Live?
  }

  /** A search along the hash of any live slot gets as far as the slot. */
  ghost predicate Findable<V>(slots: seq<Slot<V>>)
    requires PrimeSize(|slots|)
  {
    forall i: nat :: i < |slots| && slots[i].Live? ==>
      Trail(slots, slots[i].hash, Distance(slots[i].hash, |slots|, i))
  }

  /** The n-th probe is the first of the hash that sees no live slot. */
  ghost predicate FirstFree<V>(slots: seq<Slot<V>>, hash: nat, n: nat)
    requires |slots| >= 3
  {
    n < |slots| && Crowded(slots, hash, n) && !slots[ProbeAt(hash, |slots|, n)].Live?
  }

  lemma FirstFreeUnique<V>(slots: seq<Slot<V>>, hash: nat, n: nat, n': nat)
    requires |slots| >= 3 && FirstFree(slots, hash, n) && FirstFree(slots, hash, n')
    ensures n == n'
  {
  }

  lemma ExistsFirstFree<V>(slots: seq<Slot<V>>, hash: nat, free: nat) returns (n: nat)
    requires PrimeSize(|slots|) && free < |slots| && !slots[free].Live?
    ensures FirstFree(slots, hash, n)
  {
    var d := Distance(hash, |slots|, free);
    n := 0;
    while slots[ProbeAt(hash, |slots|, n)].Live?
      invariant n <= d && Crowded(slots, hash, n)
      decreases d - n
    {
      n := n + 1;
    }
  }

  /** Brent's move: the occupant of slot `from` has its n-th next probe as the first free slot further along. */
  ghost predicate FreeAhead<V>(slots: seq<Slot<V>>, from: nat, n: nat, to: nat)
    requires PrimeSize(|slots|)
  {
    && from < |slots| && slots[from].Live?
    && 0 < n < |slots|
    && (forall j: nat :: 0 < j < n ==> slots[Ahead(slots, from, j)].Live?)
    && to == Ahead(slots, from, n) && !slots[to].Live?
  }

  /** The slot n probes after `from` on the occupant's own sequence. */
  ghost function Ahead<V>(slots: seq<Slot<V>>, from: nat, n: nat): (to: nat)
    requires PrimeSize(|slots|) && from < |slots| && slots[from].Live?
    ensures to < |slots|
  {
    ProbeAt(slots[from].hash, |slots|, Distance(slots[from].hash, |slots|, from) + n)
  }

  /** The occupants seen by these probes of the hash have nowhere to move that would cost less than it saves. */
  ghost predicate NonePays<V>(slots: seq<Slot<V>>, hash: nat, worst: nat, from: nat, to: int)
    requires PrimeSize(|slots|) && Crowded(slots, hash, worst)
  {
    forall j: nat, n: nat :: from <= j < to && 0 < n && j + n < worst ==>
      slots[ProbeAt(hash, |slots|, j)].Live? && slots[Ahead(slots, ProbeAt(hash, |slots|, j), n)].Live?
  }

  lemma NonePaysMore<V>(slots: seq<Slot<V>>, hash: nat, worst: nat, from: nat, to: nat)
    requires PrimeSize(|slots|) && Crowded(slots, hash, worst) && NonePays(slots, hash, worst, from, to)
    requires to < worst ==> var h := ProbeAt(hash, |slots|, to);
      forall n: nat :: 0 < n && to + n < worst ==> slots[Ahead(slots, h, n)].Live?
    ensures NonePays(slots, hash, worst, from, to + 1)
  {
  }

  lemma NonePaysYet<V>(slots: seq<Slot<V>>, hash: nat, worst: nat, from: nat)
    requires PrimeSize(|slots|) && Crowded(slots, hash, worst)
    ensures NonePays(slots, hash, worst, from, from)
  {
  }

  /** Beyond the last probe but one before the first free one nothing can pay off. */
  lemma NonePaysFewer<V>(slots: seq<Slot<V>>, hash: nat, worst: nat, from: nat, to: nat, to': int)
    requires PrimeSize(|slots|) && Crowded(slots, hash, worst) && NonePays(slots, hash, worst, from, to)
    requires to' <= to || to + 1 >= worst
    ensures NonePays(slots, hash, worst, from, to')
  {
  }

  lemma CrowdedAt<V>(slots: seq<Slot<V>>, hash: nat, worst: nat, j: nat)
    requires |slots| >= 3 && Crowded(slots, hash, worst) && j < worst
    ensures slots[ProbeAt(hash, |slots|, j)].Live?
  {
  }

  lemma AheadNext<V>(slots: seq<Slot<V>>, from: nat, n: nat)
    requires PrimeSize(|slots|) && from < |slots| && slots[from].Live?
    ensures Ahead(slots, from, 0) == from
    ensures (Ahead(slots, from, n) + Step(slots[from].hash, |slots|)) % |slots| == Ahead(slots, from, n + 1)
  {
    ProbeNext(slots[from].hash, |slots|, Distance(slots[from].hash, |slots|, from) + n);
  }

  lemma TrailGrows<V>(slots: seq<Slot<V>>, slots': seq<Slot<V>>, hash: nat, n: nat)
    requires |slots| == |slots'| >= 3 && Trail(slots, hash, n)
    requires forall i: nat :: i < |slots| && slots'[i].Unused? ==> slots[i].Unused?
    ensures Trail(slots', hash, n)
  {
  }

  /** Writing a live entry where its own trail leads keeps everything findable. */
  lemma PlaceKeepsFindable<V>(slots: seq<Slot<V>>, at: nat, e: Slot<V>)
    requires PrimeSize(|slots|) && Findable(slots) && at < |slots| && e.Live?
    requires Trail(slots, e.hash, Distance(e.hash, |slots|, at))
    ensures Findable(slots[at := e])
  {
    var slots' := slots[at := e];
    forall i: nat | i < |slots'| && slots'[i].Live?
      ensures Trail(slots', slots'[i].hash, Distance(slots'[i].hash, |slots'|, i))
    {
      TrailGrows(slots, slots', slots'[i].hash, Distance(slots'[i].hash, |slots|, i));
    }
  }

  /** Emptying a slot with a tombstone keeps everything findable. */
  lemma RemoveKeepsFindable<V>(slots: seq<Slot<V>>, at: nat)
    requires PrimeSize(|slots|) && Findable(slots) && at < |slots| && slots[at].Live?
    ensures Findable(slots[at := Deleted])
  {
    var slots' := slots[at := Deleted];
    forall i: nat | i < |slots'| && slots'[i].Live?
      ensures Trail(slots', slots'[i].hash, Distance(slots'[i].hash, |slots'|, i))
    {
      TrailGrows(slots, slots', slots'[i].hash, Distance(slots'[i].hash, |slots|, i));
    }
  }

  /** The trail of a relocated entry, wrapped round or not, and that it grows by at most n. */
  lemma MoveTrail<V>(slots: seq<Slot<V>>, from: nat, n: nat, to: nat)
    requires PrimeSize(|slots|) && Findable(slots) && FreeAhead(slots, from, n, to)
    ensures var hash, m := slots[from].hash, |slots|;
            Distance(hash, m, to) <= Distance(hash, m, from) + n && Trail(slots, hash, Distance(hash, m, to))
  {
    var hash, m := slots[from].hash, |slots|;
    var d := Distance(hash, m, from);
    if d + n < m {
      DistanceOfProbe(hash, m, d + n);
      forall j: nat | j < d + n ensures !slots[ProbeAt(hash, m, j)].Unused? {
        if j > d { assert ProbeAt(hash, m, j) == Ahead(slots, from, j - d); }
      }
    } else {
      ProbePeriodic(hash, m, d + n - m);
      DistanceOfProbe(hash, m, d + n - m);
    }
  }

  /** Brent's placement as a whole: move the occupant of `from` ahead, then settle the new entry in its place. */
  lemma RelocateKeepsFindable<V>(slots: seq<Slot<V>>, from: nat, n: nat, to: nat, e: Slot<V>)
    requires PrimeSize(|slots|) && Findable(slots) && FreeAhead(slots, from, n, to)
    requires e.Live? && Crowded(slots, e.hash, Distance(e.hash, |slots|, from))
    ensures Findable(slots[to := slots[from]])
    ensures Findable(slots[to := slots[from]][from := e])
  {
    MoveTrail(slots, from, n, to);
    PlaceKeepsFindable(slots, to, slots[from]);
    var moved := slots[to := slots[from]];
    TrailGrows(slots, moved, e.hash, Distance(e.hash, |slots|, from));
    PlaceKeepsFindable(moved, from, e);
  }

  // ---- cost ----

  /** Number of slots a successful search for the entry in slot i looks at. */
  ghost function Probes<V>(slots: seq<Slot<V>>, i: nat): nat
    requires PrimeSize(|slots|) && i < |slots|
  {
    if slots[i].Live? then Distance(slots[i].hash, |slots|, i) + 1 else 0
  }

  ghost function ProbesBelow<V>(slots: seq<Slot<V>>, n: nat): nat
    requires PrimeSize(|slots|) && n <= |slots|
  {
    if n == 0 then 0 else ProbesBelow(slots, n - 1) + Probes(slots, n - 1)
  }

  /** Summed probe length over all entries. */
  ghost function TotalProbes<V>(slots: seq<Slot<V>>): nat
    requires PrimeSize(|slots|)
  {
    ProbesBelow(slots, |slots|)
  }

  lemma {:induction false} ProbesAfterWrite<V>(slots: seq<Slot<V>>, at: nat, e: Slot<V>, n: nat)
    requires PrimeSize(|slots|) && at < |slots| && n <= |slots|
    ensures var slots' := slots[at := e];
            ProbesBelow(slots', n) ==
              ProbesBelow(slots, n) + if at < n then Probes(slots', at) - Probes(slots, at) else 0
  {
    if n > 0 { ProbesAfterWrite(slots, at, e, n - 1); }
  }

  /** Strict improvement: moving an entry pays off against putting the new one into its first free slot. */
  lemma MoveIsCheaper<V>(slots: seq<Slot<V>>, worst: nat, len: nat, from: nat, n: nat, to: nat, e: Slot<V>)
    requires PrimeSize(|slots|) && Findable(slots) && e.Live? && FirstFree(slots, e.hash, worst)
    requires len < worst && from == ProbeAt(e.hash, |slots|, len) && FreeAhead(slots, from, n, to)
    requires len + n < worst
    ensures TotalProbes(slots[to := slots[from]][from := e])
          < TotalProbes(slots[ProbeAt(e.hash, |slots|, worst) := e])
  {
    var m := |slots|;
    var plain := ProbeAt(e.hash, m, worst);
    DistanceOfProbe(e.hash, m, worst);
    DistanceOfProbe(e.hash, m, len);
    MoveTrail(slots, from, n, to);
    ProbesAfterWrite(slots, plain, e, m);
    ProbesAfterWrite(slots, to, slots[from], m);
    ProbesAfterWrite(slots[to := slots[from]], from, e, m);
  }
}
