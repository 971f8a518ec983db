/** The timed, capped cache of file status (lws_get_file_status in src/lws_module.c). */
module StatCache {
  import opened Wrappers
  import opened Keys
  import opened OrderedMap
  import opened Table
  import opened TableState
  import opened TableSizes
  import opened Primes

  datatype FileStatus = Found | NotFound

  /** A stat call, its outcome, and the clock at the call and when the outcome was stored. */
  datatype Observation = Observation(file: Key, status: FileStatus, at: int, stored: int)

  /** This observation of the file had this outcome and was stored at this time, not before the call. */
  ghost predicate Observed(n: Naming, ob: Observation, file: Key, status: FileStatus, stored: int) {
    n.Id(ob.file) == n.Id(file) && ob.status == status && ob.at <= ob.stored == stored
  }

  ghost predicate Logged(n: Naming, log: seq<Observation>, file: Key, status: FileStatus, stored: int) {
    exists i :: 0 <= i < |log| && Observed(n, log[i], file, status, stored)
  }

  lemma StillLogged(n: Naming, log: seq<Observation>, ob: Observation, file: Key, status: FileStatus, stored: int)
    ensures Logged(n, log, file, status, stored) ==> Logged(n, log + [ob], file, status, stored)
    ensures Observed(n, ob, file, status, stored) ==> Logged(n, log + [ob], file, status, stored)
  {
    var log' := log + [ob];
    assert log'[|log|] == ob;
    if i :| 0 <= i < |log| && Observed(n, log[i], file, status, stored) { assert log'[i] == log[i]; }
  }

  /** Every cached status was observed, and stored no later than now. */
  ghost predicate Backed(n: Naming, items: seq<Item<FileStatus>>, log: seq<Observation>, now: int) {
    forall i :: 0 <= i < |items| ==> items[i].time <= now && Logged(n, log, items[i].key, items[i].value, items[i].time)
  }

  /** Kept and renewed entries stay backed when the log grows and the clock moves on. */
  lemma BackedAfterSet(n: Naming, o: Options, items: seq<Item<FileStatus>>, log: seq<Observation>, now: int,
                       ob: Observation)
    requires Backed(n, items, log, now) && o.timed && now <= ob.stored && ob.at <= ob.stored
    ensures Backed(n, items, log + [ob], ob.stored)
    ensures Backed(n, Evict(o, items), log + [ob], ob.stored)
    ensures Backed(n, AfterSet(n, o, items, ob.file, ob.status, ob.stored), log + [ob], ob.stored)
  {
    hide Naming.Id, Logged;
    forall i | 0 <= i < |items| ensures Logged(n, log + [ob], items[i].key, items[i].value, items[i].time) {
      StillLogged(n, log, ob, items[i].key, items[i].value, items[i].time);
    }
    var k := Position(n, items, n.Id(ob.file));
    StillLogged(n, log, ob, if k < |items| then items[k].key else ob.file, ob.status, ob.stored);
  }

  lemma BackedAfterGet(n: Naming, o: Options, items: seq<Item<FileStatus>>, log: seq<Observation>, now: int,
                       file: Key, clock: int)
    requires Backed(n, items, log, now) && now <= clock
    ensures Backed(n, AfterGet(n, o, items, file, clock), log, clock)
  {
    hide Naming.Id, Logged;
  }

  /** The status was observed less than the timeout, and the time it took to store it, ago. */
  predicate RecentlyObserved(n: Naming, o: Options, ob: Observation, file: Key, status: FileStatus, clock: int) {
    && n.Id(ob.file) == n.Id(file) && ob.status == status
    && ob.at <= ob.stored <= clock && clock - ob.at < o.timeout + (ob.stored - ob.at)
  }

  /** What a lookup serves was recently observed. */
  lemma ServedAge(n: Naming, o: Options, items: seq<Item<FileStatus>>, log: seq<Observation>, now: int, file: Key,
                  clock: int) returns (i: nat)
    requires Backed(n, items, log, now) && now <= clock && o.timed && GetResult(n, o, items, file, clock).Some?
    ensures i < |log| && RecentlyObserved(n, o, log[i], file, GetResult(n, o, items, file, clock).value, clock)
  {
    hide Naming.Id;
    var k := Position(n, items, n.Id(file));
    i :| 0 <= i < |log| && Observed(n, log[i], items[k].key, items[k].value, items[k].time);
  }

  /** A cached observation is served at this time: the entry has not expired. */
  predicate Serves(o: Options, ob: Observation, clock: int) {
    ob.stored <= clock && !(ob.stored + o.timeout <= clock)
  }

  /** While an observation is cached, a lookup serves it exactly while it counts as unexpired. */
  lemma ServedWhileUnexpired(n: Naming, o: Options, items: seq<Item<FileStatus>>, k: nat, ob: Observation, clock: int)
    requires Sound(n, o, items) && k < |items| && o.timed && ob.stored <= clock
    requires Observed(n, ob, items[k].key, items[k].value, items[k].time)
    ensures GetResult(n, o, items, ob.file, clock) == if Serves(o, ob, clock) then Some(ob.status) else None
  {
    PositionUnique(n, items, k);
  }

  /** A status is always served within the timeout of its stat call, exactly if it was stored when that was made. */
  lemma FreshExactly(o: Options, ob: Observation)
    requires o.timed && o.timeout > 0 && ob.at <= ob.stored
    ensures (forall clock :: Serves(o, ob, clock) ==> clock - ob.at < o.timeout) <==> ob.stored == ob.at
  {
    var last := ob.stored + o.timeout - 1;
    assert Serves(o, ob, last);
  }

  class StatCache {
    const cache: Table<FileStatus>
    ghost var log: seq<Observation>
    ghost var now: int

    ghost predicate Valid()
      reads this, cache, cache.entries, cache.queue, cache.queue.prev, cache.queue.next
    {
      && cache.Valid() && cache.options.timed && cache.options.capped
      && Backed(cache.Naming(), cache.Contents(), log, now)
    }

    constructor (cache: Table<FileStatus>, now: int)
      requires cache.Valid() && cache.options.timed && cache.options.capped && cache.Contents() == []
      ensures Valid() && this.cache == cache && log == [] && this.now == now
    {
      this.cache, log, this.now := cache, [], now;
    }

    /** What storing a status makes of the cache. */
    ghost function Storing(file: Key, fs: FileStatus, after: int, tableMemory: bool, keyMemory: bool)
      : seq<Item<FileStatus>>
      requires cache.Valid()
      reads this, cache, cache.entries, cache.queue, cache.queue.prev, cache.queue.next
    {
      var n, o, items := cache.Naming(), cache.options, cache.Contents();
      var largest := cache.sizes[|cache.sizes| - 1];
      var room := |Evict(o, items)| < cache.load || (tableMemory && cache.alloc < largest);
      SetResult(n, o, items, file, Some(fs), after, room, keyMemory).1
    }

    /** Store the status of a file that was observed at a time. */
    method Store(file: Key, fs: FileStatus, at: int, after: int, tableMemory: bool, keyMemory: bool)
      requires Valid() && now <= at <= after
      modifies this, cache.Repr()
      ensures Valid() && fresh(cache.Repr() - old(cache.Repr()))
      ensures cache.Naming() == old(cache.Naming()) && cache.options == old(cache.options)
      ensures cache.Contents() == old(Storing(file, fs, after, tableMemory, keyMemory))
      ensures log == old(log) + [Observation(file, fs, at, after)] && now == after
    {
      hide Naming.Id, Logged, AfterSet, Evict, Fits, Ordered, ListOf, OQ.Linked, Load;
      ghost var ob := Observation(file, fs, at, after);
      BackedAfterSet(cache.Naming(), cache.options, cache.Contents(), log, now, ob);
      var ok := cache.Set(file, Some(fs), after, tableMemory, keyMemory);
      log := log + [ob];
      now := after;
    }

    /** The clock reads `before` at the lookup, `at` at the stat call, `after` at storing; it never runs backwards. */
    method GetFileStatus(file: Key, before: int, regular: bool, at: int, after: int, tableMemory: bool, keyMemory: bool)
      returns (fs: FileStatus, served: bool)
      requires Valid() && now <= before <= at <= after
      modifies this, cache.Repr()
      ensures Valid() && fresh(cache.Repr() - old(cache.Repr()))
      ensures cache.Naming() == old(cache.Naming()) && cache.options == old(cache.options)
      // the cache serves what a lookup yields; otherwise the file is observed and its status stored
      ensures var found := GetResult(cache.Naming(), cache.options, old(cache.Contents()), file, before);
              served == found.Some? && fs == if served then found.value else if regular then Found else NotFound
      ensures served ==> log == old(log) && now == before
      ensures !served ==> log == old(log) + [Observation(file, fs, at, after)] && now == after
      ensures !served ==> cache.Contents() == old(Storing(file, fs, after, tableMemory, keyMemory))
      ensures served ==>
        exists i :: 0 <= i < |log| && RecentlyObserved(cache.Naming(), cache.options, log[i], file, fs, before)
    {
      hide Naming.Id, Logged, RecentlyObserved, AfterSet, Evict, SetResult, Fits, Ordered, ListOf, OQ.Linked, Load;
      BackedAfterGet(cache.Naming(), cache.options, cache.Contents(), log, now, file, before);
      ghost var n, o, items := cache.Naming(), cache.options, cache.Contents();
      var cached := cache.Get(file, before);
      if cached.Some? {
        ghost var i := ServedAge(n, o, items, log, now, file, before);
        now := before;
        return cached.value, true;
      }
      fs := if regular then Found else NotFound;
      served := false;
      now := before;
      Store(file, fs, at, after, tableMemory, keyMemory);
    }
  }

  lemma ThreeSlots()
    ensures ValidSizes([3])
  {
    assert !Divides(2, 3);
  }

  /**
    * A run that serves a status older than the timeout: a file is observed at time 0 and its status stored at time 5,
    * so with a timeout of 10 the status is served at time 14, when the file has long gone.
    */
  method StaleStatus(hashOf: Hash, file: Key) returns (c: StatCache, fs: FileStatus, served: bool)
    ensures served && fs == Found && c.cache.options.timeout == 10
    ensures c.log == [Observation(file, Found, 0, 5)] && c.now == 14
  {
    hide Naming.Id, Logged, Fits, Ordered, ListOf, OQ.Linked, IsPrime;
    ThreeSlots();
    var t := new Table<FileStatus>([3], hashOf, 3);
    var ok := t.SetTimeout(10);
    ok := t.SetCap(1);
    c := new StatCache(t, 0);
    fs, served := c.GetFileStatus(file, 0, true, 0, 5, true, true);
    assert c.cache.Contents() == [Item(file, Found, 5)];
    fs, served := c.GetFileStatus(file, 14, false, 14, 14, true, true);
  }
}
