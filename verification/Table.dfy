/** The hash table: open addressing, double hashing, Brent's relocation, tombstones, order queue (src/lws_table.c). */
module Table {
  import opened Wrappers
  import opened Primes
  import opened Probing
  import opened Keys
  import opened Sequences
  import opened Slots
  import opened TableSizes
  import opened OrderedMap
  import opened TableState
  import OQ = OrderQueue

  class Table<V> {
    const sizes: seq<nat>
    const hashOf: Hash
    var options: Options
    var ci: bool
    var alloc: nat
    var load: nat
    var count: nat
    var entries: array<Slot<V>>
    var queue: OQ.Queue

    function Naming(): Naming
      reads this`ci
    {
      OrderedMap.Naming(hashOf, ci)
    }

    ghost function Repr(): set<object>
      reads this, queue
    {
      {this, entries, queue, queue.prev, queue.next}
    }

    /** What an insertion relies on; true also in the middle of a rehash. */
    ghost function Core(): (b: bool)
      reads this`alloc, this`entries, this`queue, entries, queue, queue.prev, queue.next
      ensures b ==>
        && PrimeSize(alloc) && 2 * alloc <= SIZE_MAX && entries.Length == alloc && queue.next.Length == alloc + 1
        && queue.Valid() && Ordered(entries[..], queue.order)
    {
      && PrimeSize(alloc) && 2 * alloc <= SIZE_MAX && entries.Length == alloc && queue.next.Length == alloc + 1
      && queue.Valid() && Ordered(entries[..], queue.order)
    }

    ghost function Valid(): (b: bool)
      reads this, entries, queue, queue.prev, queue.next
      ensures b ==>
        && Core() && ValidSizes(sizes) && alloc in sizes && load == Load(alloc)
        && count == |queue.order| <= load && (options.capped ==> 1 <= options.cap && count <= options.cap)
        && Fits(entries[..], queue.order, Naming(), options)
    {
      && Core() && ValidSizes(sizes) && alloc in sizes && load == Load(alloc)
      && count == |queue.order| <= load && (options.capped ==> 1 <= options.cap && count <= options.cap)
      && Fits(entries[..], queue.order, Naming(), options)
    }

    /** The table as an ordered list. */
    ghost function Contents(): (items: seq<Item<V>>)
      requires Ordered(entries[..], queue.order)
      reads this, entries, queue
      ensures |items| == |queue.order|
    {
      ListOf(entries[..], queue.order, options.timed)
    }

    constructor (sizes: seq<nat>, hashOf: Hash, alloc: nat)
      requires ValidSizes(sizes) && alloc in sizes
      ensures Valid() && fresh(Repr()) && Contents() == [] && this.alloc == alloc
      ensures this.sizes == sizes && this.hashOf == hashOf
      ensures !ci && options == Options(false, false, false, 0, false, 0)
    {
      this.sizes, this.hashOf, this.alloc, this.load, this.count := sizes, hashOf, alloc, Load(alloc), 0;
      this.options, this.ci := Options(false, false, false, 0, false, 0), false;
      entries := new Slot<V>[alloc](_ => Unused);
      queue := new OQ.Queue(alloc);
    }

    static method Create(sizes: seq<nat>, hashOf: Hash, load: nat, memory: bool) returns (t: Table?<V>)
      requires ValidSizes(sizes)
      ensures t == null <==> !memory || Requested(sizes, load) > sizes[|sizes| - 1]
      ensures t != null ==> t.Valid() && fresh(t.Repr()) && t.Contents() == []
      ensures t != null ==> (t.load >= load <==> load < sizes[|sizes| - 1])
      ensures t != null ==>
        LeastSize(sizes, if load < sizes[|sizes| - 1] then load + load / 7 + 3 else load, Some(t.alloc))
    {
      var size := FindSize(sizes, Requested(sizes, load));
      assert sizes[|sizes| - 1] in sizes;
      if size.None? || !memory {
        return null;
      }
      t := new Table(sizes, hashOf, size.value);
      CreatedLoad(sizes, load, size.value);
    }

    /** Search along the probe sequence; with no unused slot left, stop where it began. */
    method Find(key: Key, hash: nat) returns (r: Option<nat>)
      requires Valid() && hash == hashOf(Fold(ci, key))
      ensures match r
              case Some(i) => i < alloc && entries[i].Live? && Naming().Id(entries[i].key) == Naming().Id(key)
              case None => Absent(entries[..], Naming(), key)
    {
      hide Passed, Advance, Distance, Findable, Ordered, ListOf, OQ.Linked, AscendingPrimes;
      ghost var slots, n := entries[..], Naming();
      ghost var k: nat := 0;
      assert Passed(slots, n, key, hash, 0) by { NonePassed(slots, n, key, hash); }
      var h := hash % alloc;
      var q := hash % (alloc - 2) + 1;
      var start := h;
      ProbeStart(hash, alloc);
      while !entries[h].Unused?
        invariant k < alloc && h == ProbeAt(hash, alloc, k) && Passed(slots, n, key, hash, k)
        decreases alloc - k
      {
        var e := entries[h];
        if e.Live? { MatchIsIdentity(hashOf, ci, e.key, key); }
        if e.Live? && e.hash == hash && SameText(ci, e.key, key) {
          return Some(h);
        }
        PassedOneMore(slots, n, key, hash, k);
        ProbeNext(hash, alloc, k);
        BackAtStart(hash, alloc, k + 1);
        h := (h + q) % alloc;
        k := k + 1;
        if h == start {
          break;
        }
      }
      PassedMeansAbsent(slots, n, key, hash, k);
      return None;
    }

    /** Brent's method, the search: where an entry with this hash goes, and where the slot's occupant goes first. */
    method Choose(hash: nat) returns (at: nat, home: nat, ghost p: Placement)
      requires Core() && |queue.order| < alloc
      ensures at < alloc && home < alloc && home == p.home && Chosen(entries[..], hash, at, p)
      ensures !entries[home].Live? && (home != at ==> entries[at].Live?)
    {
      hide Advance, Distance, Findable, Step, NonePays, Moves, OQ.Linked, Ordered;
      ghost var slots := entries[..];
      var lenWorst, h := WorstCase(hash);
      if lenWorst <= 2 {
        if lenWorst == 2 { NonePaysMore(slots, hash, 1, 0, 0); }
        NonePaysYet(slots, hash, lenWorst - 1, 0);
        return h, h, Placement(lenWorst - 1, 0, 0, h);
      }
      var move;
      move, h, p := SearchMove(hash, lenWorst);
      if move.Some? {
        return move.value.0, move.value.1, p;
      }
      return h, h, Placement(lenWorst - 1, 0, 0, h);
    }

    /** The first free probe: every probe before it is live. */
    method WorstCase(hash: nat) returns (lenWorst: nat, h: nat)
      requires Core() && |queue.order| < alloc
      ensures 1 <= lenWorst <= alloc && FirstFree(entries[..], hash, lenWorst - 1)
      ensures h == ProbeAt(hash, alloc, lenWorst - 1)
    {
      ghost var slots := entries[..];
      ghost var free := SomeSlotFree(slots, queue.order);
      ghost var worst := ExistsFirstFree(slots, hash, free);
      var q;
      h, q := hash % alloc, Step(hash, alloc);
      ProbeStart(hash, alloc);
      hide Advance, Distance, Findable, Step, OQ.Linked, Ordered;
      lenWorst := 1;
      while entries[h].Live?
        invariant 1 <= lenWorst <= worst + 1 && h == ProbeAt(hash, alloc, lenWorst - 1)
        invariant Crowded(slots, hash, lenWorst - 1)
        decreases worst + 1 - lenWorst
      {
        ProbeNext(hash, alloc, lenWorst - 1);
        h := (h + q) % alloc;
        lenWorst := lenWorst + 1;
      }
      FirstFreeUnique(slots, hash, worst, lenWorst - 1);
    }

    /** Look for an occupant of one of the probes before the first free one that can move at a lower total. */
    method SearchMove(hash: nat, lenWorst: nat) returns (move: Option<(nat, nat)>, h: nat, ghost p: Placement)
      requires PrimeSize(alloc) && 2 * alloc <= SIZE_MAX && entries.Length == alloc && 2 < lenWorst <= alloc
      requires FirstFree(entries[..], hash, lenWorst - 1)
      ensures move.None? ==>
        h == ProbeAt(hash, alloc, lenWorst - 1) && NonePays(entries[..], hash, lenWorst - 1, 0, lenWorst - 1)
      ensures move.Some? ==>
        && move.value.1 == p.home != move.value.0 && Chosen(entries[..], hash, move.value.0, p)
        && move.value.0 < alloc && move.value.1 < alloc
        && entries[move.value.0].Live? && !entries[move.value.1].Live?
    {
      ghost var slots, worst := entries[..], lenWorst - 1;
      move := None;
      var lenEntryMove := SIZE_MAX;
      p := Placement(worst, 0, 0, 0);
      var q;
      h, q := hash % alloc, Step(hash, alloc);
      ProbeStart(hash, alloc);
      hide Advance, Distance, Step, FirstFree, NonePays;
      NonePaysYet(slots, hash, worst, 0);
      var len := 1;
      while len < lenWorst - 1 && len < lenEntryMove  // a do-while loop: this holds on entry
        invariant 1 <= len <= lenWorst - 1 && h == ProbeAt(hash, alloc, len - 1)
        invariant lenEntryMove == if move.Some? then p.ahead else SIZE_MAX
        invariant NonePays(slots, hash, worst, if move.Some? then p.len + 1 else 0, len - 1)
        invariant move.Some? ==>
          && move.value.1 == p.home != move.value.0 && p.worst == worst && p.len < len - 1
          && Moves(slots, hash, move.value.0, p)
        decreases lenWorst - len
      {
        CrowdedAt(slots, hash, worst, len - 1);
        var lenMove, hMove := LookAhead(h, len, lenWorst);
        if !entries[hMove].Live? {
          // a later move replaces it
          move, lenEntryMove := Some((h, hMove)), lenMove;
          p := Placement(worst, len - 1, lenMove, hMove);
          NonePaysYet(slots, hash, worst, len);
        } else {
          NonePaysMore(slots, hash, worst, if move.Some? then p.len + 1 else 0, len - 1);
        }
        h := NextProbe(hash, h, q, len - 1);
        len := len + 1;
      }
      if move.Some? {
        NonePaysFewer(slots, hash, worst, p.len + 1, len - 1, p.ahead - 1);
      } else {
        // one more probe is the first free one
        assert len == lenWorst - 1;
        NonePaysMore(slots, hash, worst, 0, len - 1);
        h := NextProbe(hash, h, q, len - 1);
      }
    }

    method NextProbe(ghost hash: nat, h: nat, q: nat, ghost k: nat) returns (next: nat)
      requires alloc >= 3 && h == ProbeAt(hash, alloc, k) && q == Step(hash, alloc)
      ensures next == ProbeAt(hash, alloc, k + 1)
    {
      ProbeNext(hash, alloc, k);
      next := (h + q) % alloc;
    }

    /** The inner search: follow the own probe sequence of the occupant of slot h while a move would still pay off. */
    method LookAhead(h: nat, len: nat, lenWorst: nat) returns (lenMove: nat, hMove: nat)
      requires PrimeSize(alloc) && entries.Length == alloc && h < alloc && entries[h].Live?
      requires 1 <= len < lenWorst - 1 && lenWorst <= alloc
      ensures 1 <= lenMove && len + lenMove < lenWorst && hMove < alloc
      ensures !entries[hMove].Live? ==> FreeAhead(entries[..], h, lenMove, hMove)
      ensures entries[hMove].Live? ==>
        len + lenMove == lenWorst - 1 && forall n: nat :: 0 < n <= lenMove ==> entries[Ahead(entries[..], h, n)].Live?
    {
      ghost var slots := entries[..];
      var qMove := Step(entries[h].hash, alloc);
      AheadNext(slots, h, 0);
      hide Advance, Distance, Step, Ahead;
      hMove := (h + qMove) % alloc;
      lenMove := 1;
      while true
        invariant 1 <= lenMove && len + lenMove < lenWorst && hMove == Ahead(slots, h, lenMove)
        invariant forall j: nat :: 0 < j < lenMove ==> slots[Ahead(slots, h, j)].Live?
        decreases lenWorst - lenMove
      {
        if !entries[hMove].Live? {
          break;
        }
        if len + lenMove >= lenWorst - 1 {
          break;  // one more step would make up for what is saved
        }
        AheadNext(slots, h, lenMove);
        hMove := (hMove + qMove) % alloc;
        lenMove := lenMove + 1;
      }
    }

    /** Make room for an entry with this hash: the returned slot is the caller's to fill. */
    method Insert(hash: nat) returns (at: nat, ghost p: Placement)
      requires Core() && |queue.order| < alloc
      modifies entries, queue, queue.prev, queue.next
      ensures at < alloc && p.home < alloc && Chosen(old(entries[..]), hash, at, p)
      ensures entries[..] == Vacated(old(entries[..]), at, p.home)
      ensures queue.Valid() && OrderedBut(entries[..], queue.order, at)
      ensures Along(entries[..], queue.order) == Along(old(entries[..]), old(queue.order))
    {
      hide Ordered, OrderedBut, Chosen, IsPrime, OQ.Linked;
      var home;
      at, home, p := Choose(hash);
      FreeOutside(entries[..], queue.order, home);
      if home != at {
        ghost var slots := entries[..];
        ghost var k := InQueue(slots, queue.order, at);
        RelocateOrdered(slots, queue.order, at, k, home);
        entries[home] := entries[at];
        queue.Relocate(at, home, k);
        assert entries[..] == slots[home := slots[at]];
      }
    }

    /** Unlink an entry and leave a tombstone. */
    method Remove(i: nat, ghost k: nat)
      requires Valid() && k < |queue.order| && queue.order[k] == i
      modifies this`count, entries, queue, queue.prev, queue.next
      ensures Valid() && Contents() == Without(old(Contents()), k)
    {
      hide Fits, Ordered, OrderedBut, ListOf, OQ.Linked;
      ghost var slots := entries[..];
      RemoveFits(slots, queue.order, Naming(), options, k);
      queue.Remove(i, k);
      entries[i] := Deleted;
      count := count - 1;
      assert entries[..] == slots[i := Deleted];
    }

    /** Make an entry the most recent one. */
    method MoveToTail(i: nat, ghost k: nat)
      requires Valid() && k < |queue.order| && queue.order[k] == i
      modifies queue, queue.prev, queue.next
      ensures Valid() && Contents() == ToBack(old(Contents()), k)
      ensures queue.order == Without(old(queue.order), k) + [i]
    {
      hide Fits, Ordered, OrderedBut, ListOf, OQ.Linked;
      ToBackFits(entries[..], queue.order, Naming(), options, k);
      queue.Remove(i, k);
      queue.InsertTail(i);
    }

    method Get(key: Key, now: int) returns (r: Option<V>)
      requires Valid()
      modifies queue, queue.prev, queue.next
      ensures Valid()
      ensures r == GetResult(Naming(), options, old(Contents()), key, now)
      ensures Contents() == AfterGet(Naming(), options, old(Contents()), key, now)
    {
      hide Fits, Ordered, OrderedBut, ListOf, OQ.Linked;
      var entry := Find(key, hashOf(Fold(ci, key)));
      if entry.None? {
        AbsentNowhere(entries[..], queue.order, Naming(), options, key);
        return None;
      }
      var i := entry.value;
      ghost var k := FoundAt(entries[..], queue.order, Naming(), options, i, key);
      if options.timed {
        if entries[i].time + options.timeout <= now {
          return None;
        }
      }
      if options.capped {
        MoveToTail(i, k);
      }
      return Some(entries[i].value);
    }

    method Next(key: Option<Key>) returns (r: Option<(Key, V)>)
      requires Valid()
      ensures r == match NextItem(Naming(), Contents(), key)
                   case None => None
                   case Some(item) => Some((item.key, item.value))
    {
      hide Fits, Ordered, OrderedBut, ListOf, OQ.Linked;
      var q;
      if key.Some? {
        var entry := Find(key.value, hashOf(Fold(ci, key.value)));
        if entry.None? {
          AbsentNowhere(entries[..], queue.order, Naming(), options, key.value);
          return None;
        }
        ghost var k := FoundAt(entries[..], queue.order, Naming(), options, entry.value, key.value);
        queue.Neighbours(k + 1);
        q := queue.next[entry.value];
        if k + 1 < |queue.order| { ListAt(entries[..], queue.order, options.timed, k + 1); }
      } else {
        queue.Neighbours(0);
        q := queue.next[queue.Sentinel()];
        if |queue.order| > 0 { ListAt(entries[..], queue.order, options.timed, 0); }
      }
      if q == queue.Sentinel() {
        return None;
      }
      return Some((entries[q].key, entries[q].value));
    }

    /** One step of a rehash: insert an entry of the old array and put it at the head of the new order. */
    method Reinsert(e: Slot<V>)
      requires Core() && Findable(entries[..]) && NoTombstones(entries[..]) && |queue.order| < alloc && e.Live?
      modifies entries, queue, queue.prev, queue.next
      ensures Core() && Findable(entries[..]) && NoTombstones(entries[..])
      ensures Along(entries[..], queue.order) == [e] + old(Along(entries[..], queue.order))
    {
      hide Fits, Ordered, OrderedBut, ListOf, OQ.Linked;
      ghost var before, order := entries[..], queue.order;
      var at, p := Insert(e.hash);
      ReinsertFits(before, order, e, at, p, queue.order);
      ghost var vacated := entries[..];
      entries[at] := e;
      assert entries[..] == vacated[at := e];
      queue.InsertHead(at);
    }

    /** The loop of a rehash: reinsert the entries of an old queue from the last to the first. */
    method ReinsertAll(oldEntries: array<Slot<V>>, oldQueue: OQ.Queue)
      requires Core() && Findable(entries[..]) && NoTombstones(entries[..]) && queue.order == []
      requires oldQueue.Valid() && oldQueue.next.Length == oldEntries.Length + 1 && |oldQueue.order| < alloc
      requires Ordered(oldEntries[..], oldQueue.order)
      requires oldEntries != entries && oldQueue != queue
      requires {oldQueue.prev, oldQueue.next} !! {queue.prev, queue.next}
      modifies entries, queue, queue.prev, queue.next
      ensures Core() && Findable(entries[..]) && NoTombstones(entries[..])
      ensures Along(entries[..], queue.order) == Along(oldEntries[..], oldQueue.order)
    {
      hide Along, Ordered, OQ.Linked;
      ghost var slots, order := oldEntries[..], oldQueue.order;
      ghost var along := Along(slots, order);
      ghost var k := |order|;
      oldQueue.Neighbours(k);
      var s := oldQueue.Sentinel();
      var q := oldQueue.prev[s];
      while q != s
        invariant 0 <= k <= |order| && q == OQ.At(order, s, k - 1)
        invariant Core() && Findable(entries[..]) && NoTombstones(entries[..])
        invariant Along(entries[..], queue.order) == along[k..]
        decreases k
      {
        assert k > 0 && q == order[k - 1];
        ghost var before := oldQueue.Before(k - 1);
        AlongAt(slots, order, k - 1);
        var e := oldEntries[q];
        assert e == along[k - 1];
        TakeOne(along, k);
        Reinsert(e);
        assert Along(entries[..], queue.order) == along[k - 1..];
        assert oldQueue.prev[q] == before;
        q := oldQueue.prev[q];
        k := k - 1;
      }
    }

    /** Move to the least size at or above the given one; without such a size or without memory nothing happens. */
    method Rehash(size: nat, memory: bool) returns (ok: bool)
      requires Valid() && size > alloc
      modifies this`alloc, this`load, this`entries, this`queue
      ensures Valid() && Contents() == old(Contents())
      ensures ok <==> memory && size <= sizes[|sizes| - 1]
      ensures ok ==> fresh(entries) && fresh(queue) && fresh(queue.prev) && fresh(queue.next)
      ensures ok ==> LeastSize(sizes, size, Some(alloc)) && load > old(load) && NoTombstones(entries[..])
      ensures !ok ==> unchanged(this)
    {
      hide Fits, Ordered, OrderedBut, ListOf, Position, Findable, OQ.Linked;
      var found := FindSize(sizes, size);
      Largest(sizes, size, found);
      if found.None? || !memory {
        return false;
      }
      ghost var slots, order := entries[..], queue.order;
      GrownSize(sizes, alloc, size, found.value);

      // the old queue is kept, its links are read while the new one is built
      alloc := found.value;
      load := Load(alloc);
      var oldEntries, oldQueue := entries, queue;
      entries := new Slot<V>[alloc](_ => Unused);
      queue := new OQ.Queue(alloc);
      UnusedSlots(entries[..]);
      ReinsertAll(oldEntries, oldQueue);
      RebuildFits(slots, order, entries[..], queue.order, Naming(), options);
      return true;
    }

    /** Set, replace or (without a value) remove an entry; fails only for want of memory. */
    method Set(key: Key, value: Option<V>, now: int, tableMemory: bool, keyMemory: bool) returns (ok: bool)
      requires Valid()
      modifies Repr()
      ensures Valid() && fresh(Repr() - old(Repr())) && Naming() == old(Naming()) && options == old(options)
      ensures var growable := tableMemory && old(alloc) < sizes[|sizes| - 1];
              var room := |Evict(options, old(Contents()))| < old(load) || growable;
              (ok, Contents()) == SetResult(Naming(), options, old(Contents()), key, value, now, room, keyMemory)
      ensures value.None? ==> ok
    {
      hide Fits, Ordered, OrderedBut, ListOf, Position, IdOf, AfterSet, Evict, OQ.Linked, AscendingPrimes;
      var hash := hashOf(Fold(ci, key));
      var entry := Find(key, hash);
      if value.Some? {
        if entry.Some? {
          // k is where the list has the key
          ghost var k := FoundAt(entries[..], queue.order, Naming(), options, entry.value, key);
          Update(entry.value, key, value.value, now);
          return true;
        }
        AbsentNowhere(entries[..], queue.order, Naming(), options, key);
        SetAbsent(Naming(), options, Contents(), key, value.value, now);
        ok := Add(key, hash, value.value, now, tableMemory, keyMemory);
        return ok;
      } else {
        // without a value
        Delete(key, entry);
        return true;
      }
    }

    /** The remove branch of Set. */
    method Delete(key: Key, entry: Option<nat>)
      requires Valid()
      requires match entry
               case Some(i) => i < alloc && entries[i].Live? && Naming().Id(entries[i].key) == Naming().Id(key)
               case None => Absent(entries[..], Naming(), key)
      modifies this`count, entries, queue, queue.prev, queue.next
      ensures Valid() && Contents() == AfterRemove(Naming(), old(Contents()), key)
    {
      hide Fits, Ordered, OrderedBut, ListOf, OQ.Linked;
      if entry.Some? {
        ghost var k := FoundAt(entries[..], queue.order, Naming(), options, entry.value, key);
        Remove(entry.value, k);
      } else {
        AbsentNowhere(entries[..], queue.order, Naming(), options, key);
      }
    }

    /** The update branch of Set. */
    method Update(i: nat, key: Key, value: V, now: int)
      requires Valid() && i < alloc && entries[i].Live? && Naming().Id(entries[i].key) == Naming().Id(key)
      modifies entries, queue, queue.prev, queue.next
      ensures Valid() && Contents() == AfterSet(Naming(), options, old(Contents()), key, value, now)
    {
      hide Fits, Ordered, OrderedBut, ListOf, OQ.Linked;
      ghost var k := FoundAt(entries[..], queue.order, Naming(), options, i, key);
      SetPresent(Naming(), options, Contents(), key, value, now, k);
      if options.capped {
        MoveToTail(i, k);
        k := count - 1;
      }
      Write(i, k, value, now);
    }

    /** Store a value, and the time if entries are timed. */
    method Write(i: nat, ghost k: nat, value: V, now: int)
      requires Valid() && k < |queue.order| && queue.order[k] == i
      modifies entries
      ensures Valid()
      ensures var items := old(Contents());
              Contents() == items[k := Item(items[k].key, value, if options.timed then now else items[k].time)]
    {
      hide Fits, Ordered, OrderedBut, ListOf, OQ.Linked;
      ghost var slots := entries[..];
      ListAt(slots, queue.order, options.timed, k);
      UpdateFits(slots, queue.order, Naming(), options, k, value, if options.timed then now else slots[i].time);
      var e := entries[i].(value := value);
      if options.timed {
        e := e.(time := now);
      }
      entries[i] := e;
      assert entries[..] == slots[i := e];
    }

    /** The new-entry branch of Set: evict, rehash, copy the key, insert. */
    method Add(key: Key, hash: nat, value: V, now: int, tableMemory: bool, keyMemory: bool) returns (ok: bool)
      requires Valid() && hash == hashOf(Fold(ci, key)) && !Has(Naming(), Contents(), key)
      modifies Repr()
      ensures Valid() && fresh(Repr() - old(Repr())) && Naming() == old(Naming()) && options == old(options)
      ensures var growable := tableMemory && old(alloc) < sizes[|sizes| - 1];
              var room := |Evict(options, old(Contents()))| < old(load) || growable;
              ok <==> room && (options.dup ==> keyMemory)
      ensures Contents() == if ok then Evict(options, old(Contents())) + [Item(key, value, Stamp(options, now))]
                            else Evict(options, old(Contents()))
    {
      hide Fits, Ordered, OrderedBut, ListOf, Position, Findable, OQ.Linked;
      EvictKeepsAbsent(Naming(), options, Contents(), Naming().Id(key));
      assert sizes[|sizes| - 1] in sizes;

      // the list becomes Evict of itself
      if options.capped && count == options.cap {
        EvictHead();
      }

      // room for one more entry
      if count == load {
        var grown := Rehash(alloc + 1, tableMemory);
        if !grown {
          return false;
        }
      }

      // failure leaves the list as it is now
      if options.dup && !keyMemory {
        return false;
      }
      InsertNew(key, hash, value, now);
      return true;
    }

    method EvictHead()
      requires Valid() && options.capped && count == options.cap
      modifies this`count, entries, queue, queue.prev, queue.next
      ensures Valid() && count == old(count) - 1 && Contents() == Evict(options, old(Contents()))
    {
      hide Fits, Ordered, OrderedBut, ListOf, OQ.Linked;
      queue.Neighbours(0);
      var q := queue.next[queue.Sentinel()];
      Remove(q, 0);
    }

    /** Insert an absent key at the end of the order. */
    method InsertNew(key: Key, hash: nat, value: V, now: int)
      requires Valid() && hash == hashOf(Fold(ci, key)) && !Has(Naming(), Contents(), key)
      requires count < load && (options.capped ==> count < options.cap)
      modifies this`count, entries, queue, queue.prev, queue.next
      ensures Valid() && Contents() == old(Contents()) + [Item(key, value, Stamp(options, now))]
    {
      hide Fits, Ordered, OrderedBut, ListOf, Position, Findable, OQ.Linked;
      ghost var slots, order := entries[..], queue.order;
      NowhereAbsent(slots, order, Naming(), options, key);
      LoadBounds(alloc);
      var entry, p := Insert(hash);
      var e := Live(key, value, hash, if options.timed then now else 0);
      InsertFits(slots, order, Naming(), options, e, entry, p, queue.order);
      Fill(entry, e);
      count := count + 1;
    }

    /** Fill the slot an insertion made available. */
    method Fill(at: nat, e: Slot<V>)
      requires at < alloc == entries.Length && queue.Valid() && queue.next.Length == alloc + 1 && at !in queue.order
      modifies entries, queue, queue.prev, queue.next
      ensures queue.Valid() && queue.order == old(queue.order) + [at] && entries[..] == old(entries[..])[at := e]
    {
      entries[at] := e;
      queue.InsertTail(at);
    }

    /** Forget all entries: one by one from the last if keys or values are the table's own, at once otherwise. */
    method Clear()
      requires Valid()
      modifies this`count, entries, queue, queue.prev, queue.next
      ensures Valid() && Contents() == [] && forall i :: 0 <= i < alloc ==> entries[i].Unused?
    {
      hide Fits, Ordered, OQ.Linked, Load, IsPrime, AscendingPrimes, ListOf, Findable, NoTombstones;
      if options.dup || options.free {
        while queue.next[queue.Sentinel()] != queue.Sentinel()
          invariant Valid()
          decreases count
        {
          queue.Neighbours(0);
          queue.Neighbours(|queue.order|);
          Remove(queue.prev[queue.Sentinel()], |queue.order| - 1);
        }
        queue.Neighbours(0);
      } else {
        queue.Init();
        count := 0;
      }
      assert queue.order == [];
      for i := 0 to alloc
        modifies entries
        invariant forall j :: 0 <= j < i ==> entries[j].Unused?
      {
        entries[i] := Unused;
      }
      UnusedSlots(entries[..]);
      EmptyFits(entries[..], Naming(), options);
    }

    method SetDup(dup: bool) returns (ok: bool)
      requires Valid()
      modifies this`options
      ensures Valid() && ok == (count == 0)
      ensures options == if ok then old(options).(dup := dup) else old(options)
    {
      hide Fits, Ordered, OQ.Linked, Load, IsPrime, AscendingPrimes, ListOf;
      if count != 0 {
        return false;
      }
      options := options.(dup := dup);
      EmptyFits(entries[..], Naming(), options);
      return true;
    }

    method SetFree(free: bool) returns (ok: bool)
      requires Valid()
      modifies this`options
      ensures Valid() && ok == (count == 0)
      ensures options == if ok then old(options).(free := free) else old(options)
    {
      hide Fits, Ordered, OQ.Linked, Load, IsPrime, AscendingPrimes, ListOf;
      if count != 0 {
        return false;
      }
      options := options.(free := free);
      EmptyFits(entries[..], Naming(), options);
      return true;
    }

    method SetTimeout(timeout: int) returns (ok: bool)
      requires Valid()
      modifies this`options
      ensures Valid() && ok == (count == 0)
      ensures options == if ok then old(options).(timeout := timeout, timed := true) else old(options)
    {
      hide Fits, Ordered, OQ.Linked, Load, IsPrime, AscendingPrimes, ListOf;
      if count != 0 {
        return false;
      }
      options := options.(timeout := timeout, timed := true);
      EmptyFits(entries[..], Naming(), options);
      return true;
    }

    method SetCap(cap: nat) returns (ok: bool)
      requires Valid()
      modifies this`options
      ensures Valid() && ok == (count == 0 && cap >= 1)
      ensures options == if ok then old(options).(cap := cap, capped := true) else old(options)
    {
      hide Fits, Ordered, OQ.Linked, Load, IsPrime, AscendingPrimes, ListOf;
      if count != 0 || cap < 1 {
        return false;
      }
      options := options.(cap := cap, capped := true);
      EmptyFits(entries[..], Naming(), options);
      return true;
    }

    method SetCi(ci: bool) returns (ok: bool)
      requires Valid()
      modifies this`ci
      ensures Valid() && ok == (count == 0) && this.ci == if ok then ci else old(this.ci)
    {
      hide Fits, Ordered, OQ.Linked, Load, IsPrime, AscendingPrimes, ListOf;
      if count != 0 {
        return false;
      }
      this.ci := ci;
      EmptyFits(entries[..], Naming(), options);
      return true;
    }
  }
}
