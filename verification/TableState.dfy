/** What holds between slots, order queue and list contents, and how each step of the table keeps it. */
module TableState {
  import opened Counting
  import opened Probing
  import opened Keys
  import opened Sequences
  import opened Slots
  import opened OrderedMap

  /** The slots in the order of the queue. */
  ghost function Along<V>(slots: seq<Slot<V>>, order: seq<nat>): (r: seq<Slot<V>>)
    requires forall i :: 0 <= i < |order| ==> order[i] < |slots|
    ensures |r| == |order|
  {
    seq(|order|, i requires 0 <= i < |order| => slots[order[i]])
  }

  /** The queue holds exactly the live slots, each once. */
  ghost function Ordered<V>(slots: seq<Slot<V>>, order: seq<nat>): (b: bool)
    ensures b ==> forall i :: 0 <= i < |order| ==> order[i] < |slots| && slots[order[i]].Live?
  {
    && Distinct(order)
    && (forall i :: 0 <= i < |order| ==> order[i] < |slots| && slots[order[i]].Live?)
    && (forall i: nat :: i < |slots| && slots[i].Live? ==> i in order)
  }

  ghost function ItemOf<V>(slot: Slot<V>, timed: bool): Item<V>
    requires slot.Live?
  {
    Item(slot.key, slot.value, if timed then slot.time else 0)
  }

  ghost predicate AllLive<V>(slots: seq<Slot<V>>) {
    forall i :: 0 <= i < |slots| ==> slots[i].Live?
  }

  ghost function Items<V>(slots: seq<Slot<V>>, timed: bool): (r: seq<Item<V>>)
    requires AllLive(slots)
    ensures |r| == |slots| && forall i :: 0 <= i < |r| ==> r[i] == ItemOf(slots[i], timed)
  {
    seq(|slots|, i requires 0 <= i < |slots| => ItemOf(slots[i], timed))
  }

  ghost predicate HashesStored<V>(slots: seq<Slot<V>>, n: Naming) {
    forall i :: 0 <= i < |slots| && slots[i].Live? ==> slots[i].hash == n.hashOf(Fold(n.ci, slots[i].key))
  }

  lemma {:induction false} ElementsBound(s: seq<nat>)
    ensures |Elements(s)| <= |s|
  {
    if s != [] {
      ElementsBound(s[1..]);
      assert Elements(s) == Elements(s[1..]) + {s[0]};
    }
  }

  lemma {:induction false} ElementsOfDistinct(s: seq<nat>)
    requires Distinct(s)
    ensures |Elements(s)| == |s|
  {
    if s != [] {
      ElementsOfDistinct(s[1..]);
      assert Elements(s) == Elements(s[1..]) + {s[0]};
    }
  }

  /** The length of the queue is the number of live slots. */
  lemma LiveSlotsAreQueued<V>(slots: seq<Slot<V>>, order: seq<nat>)
    requires Ordered(slots, order)
    ensures |set i: nat | i < |slots| && slots[i].Live?| == |order|
  {
    ElementsOfDistinct(order);
    assert (set i: nat | i < |slots| && slots[i].Live?) == Elements(order);
  }

  /** Fewer entries than slots leave a slot that is not live. */
  lemma SomeSlotFree<V>(slots: seq<Slot<V>>, order: seq<nat>) returns (free: nat)
    requires Ordered(slots, order) && |order| < |slots|
    ensures free < |slots| && !slots[free].Live?
  {
    if forall i: nat :: i < |slots| ==> slots[i].Live? {
      assert Below(|slots|) <= Elements(order);
      SubsetSize(Below(|slots|), Elements(order));
      ElementsBound(order);
    }
    free :| free < |slots| && !slots[free].Live?;
  }

  /** The first k probes of a key's hash saw no unused slot and not the key. */
  ghost predicate Passed<V>(slots: seq<Slot<V>>, n: Naming, key: Key, hash: nat, k: nat)
    requires |slots| >= 3
  {
    forall j: nat :: j < k ==>
      var e := slots[ProbeAt(hash, |slots|, j)]; !e.Unused? && (e.Live? ==> n.Id(e.key) != n.Id(key))
  }

  lemma NonePassed<V>(slots: seq<Slot<V>>, n: Naming, key: Key, hash: nat)
    requires |slots| >= 3
    ensures Passed(slots, n, key, hash, 0)
  {
  }

  lemma PassedOneMore<V>(slots: seq<Slot<V>>, n: Naming, key: Key, hash: nat, k: nat)
    requires |slots| >= 3 && Passed(slots, n, key, hash, k)
    requires var e := slots[ProbeAt(hash, |slots|, k)]; !e.Unused? && (e.Live? ==> n.Id(e.key) != n.Id(key))
    ensures Passed(slots, n, key, hash, k + 1)
  {
  }

  ghost predicate Absent<V>(slots: seq<Slot<V>>, n: Naming, key: Key) {
    forall i :: 0 <= i < |slots| && slots[i].Live? ==> n.Id(slots[i].key) != n.Id(key)
  }

  /** A search may stop at an unused slot, or once it has seen every slot. */
  lemma PassedMeansAbsent<V>(slots: seq<Slot<V>>, n: Naming, key: Key, hash: nat, k: nat)
    requires PrimeSize(|slots|) && Findable(slots) && HashesStored(slots, n) && hash == n.hashOf(Fold(n.ci, key))
    requires Passed(slots, n, key, hash, k) && (k >= |slots| || slots[ProbeAt(hash, |slots|, k)].Unused?)
    ensures Absent(slots, n, key)
  {
    forall i | 0 <= i < |slots| && slots[i].Live? ensures n.Id(slots[i].key) != n.Id(key) {
      var d := Distance(hash, |slots|, i);
      assert d < k ==> n.Id(slots[i].key) != n.Id(key);
    }
  }

  /**
    * Where Brent's method puts a new entry: a nearer slot whose occupant moves ahead, if any such move pays off, else
    * its first free probe. Of several moves it is the last found: after it, while the search goes on, none pays off.
    */
  datatype Placement = Placement(worst: nat, len: nat, ahead: nat, home: nat)

  ghost predicate Chosen<V>(slots: seq<Slot<V>>, hash: nat, at: nat, p: Placement)
    requires PrimeSize(|slots|)
  {
    && FirstFree(slots, hash, p.worst)
    && if p.home == at then at == ProbeAt(hash, |slots|, p.worst) && NonePays(slots, hash, p.worst, 0, p.worst)
       else Moves(slots, hash, at, p) && NonePays(slots, hash, p.worst, p.len + 1, p.ahead - 1)
  }

  /** A move that costs less than the new entry saves. */
  ghost predicate Moves<V>(slots: seq<Slot<V>>, hash: nat, at: nat, p: Placement)
    requires PrimeSize(|slots|)
  {
    && p.len + p.ahead < p.worst && at == ProbeAt(hash, |slots|, p.len)
    && FreeAhead(slots, at, p.ahead, p.home)
  }

  /** The slots once the occupant of the chosen slot, if any, has been copied ahead. */
  ghost function Vacated<V>(slots: seq<Slot<V>>, at: nat, home: nat): seq<Slot<V>>
    requires at < |slots| && home < |slots|
  {
    if home == at then slots else slots[home := slots[at]]
  }

  /** Wherever the new entry goes, every entry stays findable. */
  lemma PlacedFindable<V>(slots: seq<Slot<V>>, hash: nat, at: nat, p: Placement, e: Slot<V>)
    requires PrimeSize(|slots|) && Findable(slots) && Chosen(slots, hash, at, p) && e.Live? && e.hash == hash
    ensures Findable(Vacated(slots, at, p.home)[at := e])
  {
    if p.home == at {
      DistanceOfProbe(hash, |slots|, p.worst);
      PlaceKeepsFindable(slots, at, e);
    } else {
      DistanceOfProbe(hash, |slots|, p.len);
      RelocateKeepsFindable(slots, at, p.ahead, p.home, e);
    }
  }

  /** An occupant is moved if and only if some move pays off. */
  lemma MovedExactly<V>(slots: seq<Slot<V>>, hash: nat, at: nat, p: Placement)
    requires PrimeSize(|slots|) && Chosen(slots, hash, at, p)
    ensures p.home != at <==> exists j: nat, n: nat :: 0 < n && j + n < p.worst && FreeAfter(slots, hash, j, n)
  {
    if p.home != at { assert FreeAfter(slots, hash, p.len, p.ahead); }
  }

  /** The occupant seen by the hash's probe j has a free slot n probes further along its own sequence. */
  ghost predicate FreeAfter<V>(slots: seq<Slot<V>>, hash: nat, j: nat, n: nat)
    requires PrimeSize(|slots|)
  {
    var h := ProbeAt(hash, |slots|, j);
    slots[h].Live? && !slots[Ahead(slots, h, n)].Live?
  }

  /** Relocation strictly shortens the summed probe length; without it the entry goes to its first free slot. */
  lemma PlacedCost<V>(slots: seq<Slot<V>>, hash: nat, at: nat, p: Placement, e: Slot<V>)
    requires PrimeSize(|slots|) && Findable(slots) && Chosen(slots, hash, at, p) && e.Live? && e.hash == hash
    ensures var plain := slots[ProbeAt(hash, |slots|, p.worst) := e];
            var placed := Vacated(slots, at, p.home)[at := e];
            if p.home == at then placed == plain else TotalProbes(placed) < TotalProbes(plain)
  {
    if p.home != at {
      MoveIsCheaper(slots, p.worst, p.len, at, p.ahead, p.home, e);
    }
  }

  /** Ordered, but for one slot outside the queue whose content no longer matters. */
  ghost function OrderedBut<V>(slots: seq<Slot<V>>, order: seq<nat>, at: nat): (b: bool)
    ensures b ==> at !in order && forall i :: 0 <= i < |order| ==> order[i] < |slots|
  {
    && at < |slots| && at !in order
    && Distinct(order)
    && (forall i :: 0 <= i < |order| ==> order[i] < |slots| && slots[order[i]].Live?)
    && (forall i: nat :: i < |slots| && i != at && slots[i].Live? ==> i in order)
  }

  lemma FreeOutside<V>(slots: seq<Slot<V>>, order: seq<nat>, at: nat)
    requires Ordered(slots, order) && at < |slots| && !slots[at].Live?
    ensures OrderedBut(slots, order, at)
  {
  }

  /** Copying the entry of slot x to slot y, x being about to be overwritten, leaves the order as it was. */
  lemma RelocateOrdered<V>(slots: seq<Slot<V>>, order: seq<nat>, x: nat, k: nat, y: nat)
    requires Ordered(slots, order) && k < |order| && order[k] == x && y < |slots| && !slots[y].Live?
    ensures var slots', order' := slots[y := slots[x]], order[k := y];
            OrderedBut(slots', order', x) && Along(slots', order') == Along(slots, order)
  {
    var slots', order' := slots[y := slots[x]], order[k := y];
    forall i: nat | i < |slots| && i != x && slots'[i].Live? ensures i in order' {
      if i == y {
        assert order'[k] == y;
      } else {
        var j :| 0 <= j < |order| && order[j] == i;
        assert order'[j] == i;
      }
    }
  }

  lemma StoredAlong<V>(slots: seq<Slot<V>>, order: seq<nat>, n: Naming)
    requires Ordered(slots, order)
    ensures HashesStored(slots, n) <==> HashesStored(Along(slots, order), n)
  {
    if HashesStored(Along(slots, order), n) {
      forall i | 0 <= i < |slots| && slots[i].Live? ensures slots[i].hash == n.hashOf(Fold(n.ci, slots[i].key)) {
        var j :| 0 <= j < |order| && order[j] == i;
        assert Along(slots, order)[j] == slots[i];
      }
    }
  }

  /** The list a table stands for. */
  ghost function ListOf<V>(slots: seq<Slot<V>>, order: seq<nat>, timed: bool): (items: seq<Item<V>>)
    requires Ordered(slots, order)
    ensures |items| == |order|
  {
    Items(Along(slots, order), timed)
  }

  lemma ListAt<V>(slots: seq<Slot<V>>, order: seq<nat>, timed: bool, k: nat)
    requires Ordered(slots, order) && k < |order|
    ensures ListOf(slots, order, timed)[k] == ItemOf(slots[order[k]], timed)
  {
  }

  lemma InQueue<V>(slots: seq<Slot<V>>, order: seq<nat>, i: nat) returns (k: nat)
    requires Ordered(slots, order) && i < |slots| && slots[i].Live?
    ensures k < |order| && order[k] == i
  {
    k :| 0 <= k < |order| && order[k] == i;
  }

  /** The table invariant, apart from the links and the counters. */
  ghost function Fits<V>(slots: seq<Slot<V>>, order: seq<nat>, n: Naming, o: Options): (b: bool)
    ensures b ==> PrimeSize(|slots|) && Ordered(slots, order)
  {
    && PrimeSize(|slots|) && Ordered(slots, order) && Findable(slots) && HashesStored(slots, n)
    && Sound(n, o, ListOf(slots, order, o.timed))
  }

  /** A slot search and a list search agree. */
  lemma FoundAt<V>(slots: seq<Slot<V>>, order: seq<nat>, n: Naming, o: Options, i: nat, key: Key) returns (k: nat)
    requires Fits(slots, order, n, o) && i < |slots| && slots[i].Live? && n.Id(slots[i].key) == n.Id(key)
    ensures k < |order| && order[k] == i
    ensures Position(n, ListOf(slots, order, o.timed), n.Id(key)) == k
    ensures ListOf(slots, order, o.timed)[k] == ItemOf(slots[i], o.timed)
  {
    k := InQueue(slots, order, i);
    PositionUnique(n, ListOf(slots, order, o.timed), k);
  }

  lemma AbsentNowhere<V>(slots: seq<Slot<V>>, order: seq<nat>, n: Naming, o: Options, key: Key)
    requires Ordered(slots, order) && Absent(slots, n, key)
    ensures Position(n, ListOf(slots, order, o.timed), n.Id(key)) == |order|
  {
  }

  lemma NowhereAbsent<V>(slots: seq<Slot<V>>, order: seq<nat>, n: Naming, o: Options, key: Key)
    requires Ordered(slots, order) && Position(n, ListOf(slots, order, o.timed), n.Id(key)) == |order|
    ensures Absent(slots, n, key)
  {
    forall i | 0 <= i < |slots| && slots[i].Live? ensures n.Id(slots[i].key) != n.Id(key) {
      var j :| 0 <= j < |order| && order[j] == i;
      assert ListOf(slots, order, o.timed)[j] == ItemOf(slots[i], o.timed);
    }
  }

  lemma RemoveOrdered<V>(slots: seq<Slot<V>>, order: seq<nat>, k: nat)
    requires Ordered(slots, order) && k < |order|
    ensures Ordered(slots[order[k] := Deleted], Without(order, k))
    ensures Along(slots[order[k] := Deleted], Without(order, k)) == Without(Along(slots, order), k)
  {
    WithoutElements(order, k);
  }

  lemma AlongWithout<V>(slots: seq<Slot<V>>, order: seq<nat>, k: nat)
    requires (forall i :: 0 <= i < |order| ==> order[i] < |slots|) && k < |order|
    ensures forall i :: 0 <= i < |order| - 1 ==> Without(order, k)[i] < |slots|
    ensures Along(slots, Without(order, k)) == Without(Along(slots, order), k)
  {
  }

  lemma ToBackOrdered<V>(slots: seq<Slot<V>>, order: seq<nat>, k: nat)
    requires Ordered(slots, order) && k < |order|
    ensures var order' := Without(order, k) + [order[k]];
            Ordered(slots, order') && Along(slots, order') == Without(Along(slots, order), k) + [slots[order[k]]]
  {
    WithoutElements(order, k);
    AlongWithout(slots, order, k);
    hide Without;
    var rest := Without(order, k);
    assert forall x :: x in rest + [order[k]] <==> x in order;
    assert forall i :: 0 <= i < |rest| ==> rest[i] in order;
    assert Along(slots, rest + [order[k]]) == Along(slots, rest) + [slots[order[k]]];
  }

  lemma ItemsWithout<V>(along: seq<Slot<V>>, timed: bool, k: nat)
    requires AllLive(along) && k < |along|
    ensures AllLive(Without(along, k)) && Items(Without(along, k), timed) == Without(Items(along, timed), k)
    ensures AllLive(Without(along, k) + [along[k]])
    ensures Items(Without(along, k) + [along[k]], timed) == ToBack(Items(along, timed), k)
  {
  }

  lemma RemoveFits<V>(slots: seq<Slot<V>>, order: seq<nat>, n: Naming, o: Options, k: nat)
    requires Fits(slots, order, n, o) && k < |order|
    ensures var slots', order' := slots[order[k] := Deleted], Without(order, k);
            Fits(slots', order', n, o) && ListOf(slots', order', o.timed) == Without(ListOf(slots, order, o.timed), k)
  {
    RemoveOrdered(slots, order, k);
    ItemsWithout(Along(slots, order), o.timed, k);
    RemoveKeepsFindable(slots, order[k]);
    DropKeepsSound(n, o, ListOf(slots, order, o.timed), k);
    hide Sound, Findable, Along, Items, Ordered, Without;
  }

  lemma ToBackFits<V>(slots: seq<Slot<V>>, order: seq<nat>, n: Naming, o: Options, k: nat)
    requires Fits(slots, order, n, o) && k < |order|
    ensures order[k] !in Without(order, k)
    ensures var order' := Without(order, k) + [order[k]];
            Fits(slots, order', n, o) && ListOf(slots, order', o.timed) == ToBack(ListOf(slots, order, o.timed), k)
  {
    WithoutElements(order, k);
    ToBackOrdered(slots, order, k);
    ItemsWithout(Along(slots, order), o.timed, k);
    ToBackKeepsSound(n, o, ListOf(slots, order, o.timed), k);
    hide Sound, Findable, Along, Items, Ordered, Without, ToBack;
  }

  /** Updating the value and time of an entry in place. */
  lemma UpdateFits<V>(slots: seq<Slot<V>>, order: seq<nat>, n: Naming, o: Options, k: nat, value: V, time: int)
    requires Fits(slots, order, n, o) && k < |order|
    ensures var slots' := slots[order[k] := slots[order[k]].(value := value, time := time)];
            var items := ListOf(slots, order, o.timed);
            Fits(slots', order, n, o) &&
            ListOf(slots', order, o.timed) == items[k := Item(items[k].key, value, if o.timed then time else 0)]
  {
    var slots' := slots[order[k] := slots[order[k]].(value := value, time := time)];
    var items := ListOf(slots, order, o.timed);
    PlaceKeepsFindable(slots, order[k], slots'[order[k]]);
    assert ListOf(slots', order, o.timed) == items[k := Item(items[k].key, value, if o.timed then time else 0)];
  }

  /** Filling the slot an insertion made available, at either end of the order. */
  lemma FillOrdered<V>(slots: seq<Slot<V>>, order: seq<nat>, at: nat, e: Slot<V>)
    requires OrderedBut(slots, order, at) && e.Live?
    ensures Ordered(slots[at := e], order + [at]) && Along(slots[at := e], order + [at]) == Along(slots, order) + [e]
    ensures Ordered(slots[at := e], [at] + order) && Along(slots[at := e], [at] + order) == [e] + Along(slots, order)
  {
  }

  /** A whole insertion, from the table before to the table after. */
  lemma InsertFits<V>(slots: seq<Slot<V>>, order: seq<nat>, n: Naming, o: Options, e: Slot<V>, at: nat, p: Placement,
                      order': seq<nat>)
    requires Fits(slots, order, n, o) && e.Live? && e.hash == n.hashOf(Fold(n.ci, e.key)) && Absent(slots, n, e.key)
    requires o.capped ==> |order| < o.cap
    requires at < |slots| && p.home < |slots| && Chosen(slots, e.hash, at, p)
    requires OrderedBut(Vacated(slots, at, p.home), order', at)
    requires Along(Vacated(slots, at, p.home), order') == Along(slots, order)
    ensures var slots'' := Vacated(slots, at, p.home)[at := e];
            Fits(slots'', order' + [at], n, o) &&
            ListOf(slots'', order' + [at], o.timed) == ListOf(slots, order, o.timed) + [ItemOf(e, o.timed)]
  {
    var slots'' := Vacated(slots, at, p.home)[at := e];
    FillOrdered(Vacated(slots, at, p.home), order', at, e);
    PlacedFindable(slots, e.hash, at, p, e);
    var items := ListOf(slots, order, o.timed);
    assert ListOf(slots'', order' + [at], o.timed) == items + [ItemOf(e, o.timed)];
    AbsentNowhere(slots, order, n, o, e.key);
    AppendKeepsDistinct(n, items, ItemOf(e, o.timed));
  }

  lemma AlongAt<V>(slots: seq<Slot<V>>, order: seq<nat>, k: nat)
    requires Ordered(slots, order) && k < |order|
    ensures Along(slots, order)[k] == slots[order[k]]
  {
  }

  lemma TakeOne<T>(s: seq<T>, k: nat)
    requires 0 < k <= |s|
    ensures s[k - 1..] == [s[k - 1]] + s[k..]
  {
  }

  ghost predicate NoTombstones<V>(slots: seq<Slot<V>>) {
    forall i :: 0 <= i < |slots| ==> !slots[i].Deleted?
  }

  lemma UnusedSlots<V>(slots: seq<Slot<V>>)
    requires PrimeSize(|slots|) && forall i :: 0 <= i < |slots| ==> slots[i].Unused?
    ensures Ordered(slots, []) && Findable(slots) && NoTombstones(slots) && Along(slots, []) == []
  {
  }

  /** Without entries any naming and any options fit. */
  lemma EmptyFits<V>(slots: seq<Slot<V>>, n: Naming, o: Options)
    requires PrimeSize(|slots|) && Ordered(slots, []) && (o.capped ==> o.cap >= 1)
    ensures Fits(slots, [], n, o) && ListOf(slots, [], o.timed) == []
  {
  }

  /** A new slot array with the same entries in the same order is the same table. */
  lemma RebuildFits<V>(slots: seq<Slot<V>>, order: seq<nat>, slots': seq<Slot<V>>, order': seq<nat>, n: Naming,
                       o: Options)
    requires Fits(slots, order, n, o) && PrimeSize(|slots'|) && Ordered(slots', order') && Findable(slots')
    requires Along(slots', order') == Along(slots, order)
    ensures Fits(slots', order', n, o) && ListOf(slots', order', o.timed) == ListOf(slots, order, o.timed)
  {
    StoredAlong(slots, order, n);
    StoredAlong(slots', order', n);
  }

  /** One step of a rehash: the entry goes where its insertion put it, at the head of the new order. */
  lemma ReinsertFits<V>(slots: seq<Slot<V>>, order: seq<nat>, e: Slot<V>, at: nat, p: Placement, order': seq<nat>)
    requires PrimeSize(|slots|) && Ordered(slots, order) && Findable(slots) && NoTombstones(slots) && e.Live?
    requires at < |slots| && p.home < |slots| && Chosen(slots, e.hash, at, p)
    requires OrderedBut(Vacated(slots, at, p.home), order', at)
    requires Along(Vacated(slots, at, p.home), order') == Along(slots, order)
    ensures var slots'' := Vacated(slots, at, p.home)[at := e];
            && Findable(slots'') && NoTombstones(slots'')
            && Ordered(slots'', [at] + order') && Along(slots'', [at] + order') == [e] + Along(slots, order)
  {
    FillOrdered(Vacated(slots, at, p.home), order', at, e);
    PlacedFindable(slots, e.hash, at, p, e);
  }
}
