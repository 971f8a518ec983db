/** The ordered list as a map and as a recency list: what get, set, remove and next mean, over whole runs. */
module MapLaws {
  import opened Wrappers
  import opened Keys
  import opened Sequences
  import opened OrderedMap

  // ---- as a map ----

  /** The list as a finite map from identities to entries. */
  function Lookup<V>(n: Naming, items: seq<Item<V>>, id: Id): Option<Item<V>> {
    var k := Position(n, items, id);
    if k < |items| then Some(items[k]) else None
  }

  lemma PositionIs<V>(n: Naming, items: seq<Item<V>>, id: Id, k: nat)
    requires k <= |items| && (k < |items| ==> n.Id(items[k].key) == id)
    requires forall i :: 0 <= i < k ==> n.Id(items[i].key) != id
    ensures Position(n, items, id) == k
  {
    hide Naming.Id;
  }

  lemma LookupDrop<V>(n: Naming, items: seq<Item<V>>, k: nat, id: Id)
    requires DistinctKeys(n, items) && k < |items|
    ensures Lookup(n, Without(items, k), id) == if id == n.Id(items[k].key) then None else Lookup(n, items, id)
  {
    hide Naming.Id, Position;
    var rest := Without(items, k);
    assert forall i :: 0 <= i < |rest| ==> rest[i] == items[if i < k then i else i + 1];
    PositionUnique(n, items, k);
    var p := Position(n, items, id);
    if p < k {
      PositionIs(n, rest, id, p);
    } else if p == k {
      PositionIs(n, rest, id, |rest|);
    } else {
      PositionIs(n, rest, id, p - 1);
    }
  }

  lemma LookupAppend<V>(n: Naming, items: seq<Item<V>>, item: Item<V>, id: Id)
    requires Position(n, items, n.Id(item.key)) == |items|
    ensures Lookup(n, items + [item], id) == if id == n.Id(item.key) then Some(item) else Lookup(n, items, id)
  {
    hide Naming.Id;
    PositionAppend(n, items, item, id);
  }

  lemma {:induction false} PositionAppend<V>(n: Naming, items: seq<Item<V>>, item: Item<V>, id: Id)
    ensures var p := Position(n, items, id);
            Position(n, items + [item], id) ==
              if p < |items| then p else if id == n.Id(item.key) then |items| else |items| + 1
  {
    if items != [] {
      assert (items + [item])[1..] == items[1..] + [item];
      PositionAppend(n, items[1..], item, id);
    }
  }

  /** An expired entry reads as absent; a get never changes what is stored. */
  lemma GetIsLookup<V>(n: Naming, o: Options, items: seq<Item<V>>, key: Key, now: int, id: Id)
    requires Sound(n, o, items)
    ensures GetResult(n, o, items, key, now) ==
              match Lookup(n, items, n.Id(key))
              case Some(item) => if Expired(o, item, now) then None else Some(item.value)
              case None => None
    ensures Lookup(n, AfterGet(n, o, items, key, now), id) == Lookup(n, items, id)
  {
    hide Naming.Id, DistinctKeys;
    var k := Position(n, items, n.Id(key));
    if k < |items| {
      DropKeepsSound(n, o, items, k);
      LookupDrop(n, items, k, id);
      LookupAppend(n, Without(items, k), items[k], id);
    }
  }

  /** Without a timeout a get finds whatever is stored, at any time; with one, exactly until the timeout has passed. */
  lemma GetByTime<V>(n: Naming, o: Options, items: seq<Item<V>>, key: Key, now: int)
    ensures Lookup(n, items, n.Id(key)).None? ==> GetResult(n, o, items, key, now).None?
    ensures Lookup(n, items, n.Id(key)).Some? ==>
      var item := Lookup(n, items, n.Id(key)).value;
      GetResult(n, o, items, key, now) == if !o.timed || now < item.time + o.timeout then Some(item.value) else None
  {
  }

  /** A removal always succeeds; a value is refused only for a new key, for want of room or of memory for the key. */
  lemma SetSucceeds<V>(n: Naming, o: Options, items: seq<Item<V>>, key: Key, value: Option<V>, now: int, room: bool,
                       copied: bool)
    ensures SetResult(n, o, items, key, value, now, room, copied).0
       <==> value.None? || Lookup(n, items, n.Id(key)).Some? || (room && (o.dup ==> copied))
    ensures !SetResult(n, o, items, key, value, now, room, copied).0 ==>
      SetResult(n, o, items, key, value, now, room, copied).1 == Evict(o, items)
  {
  }

  lemma RemoveIsDelete<V>(n: Naming, o: Options, items: seq<Item<V>>, key: Key, id: Id)
    requires Sound(n, o, items)
    ensures Lookup(n, AfterRemove(n, items, key), id) == if id == n.Id(key) then None else Lookup(n, items, id)
  {
    hide Naming.Id, DistinctKeys;
    var k := Position(n, items, n.Id(key));
    if k < |items| { LookupDrop(n, items, k, id); }
  }

  lemma {:induction false} SamePosition<V>(n: Naming, a: seq<Item<V>>, b: seq<Item<V>>, id: Id)
    requires |a| == |b| && forall i :: 0 <= i < |a| ==> n.Id(a[i].key) == n.Id(b[i].key)
    ensures Position(n, a, id) == Position(n, b, id)
  {
    hide Naming.Id;
    if a != [] {
      SamePosition(n, a[1..], b[1..], id);
    }
  }

  /** A successful set is a map update, apart from the entry a full capped table gives up; the first spelling stays. */
  lemma SetIsUpdate<V>(n: Naming, o: Options, items: seq<Item<V>>, key: Key, value: V, now: int, id: Id)
    requires Sound(n, o, items)
    ensures Lookup(n, AfterSet(n, o, items, key, value, now), id) ==
      if id != n.Id(key) then Lookup(n, if Has(n, items, key) then items else Evict(o, items), id)
      else match Lookup(n, items, id)
           case Some(item) => Some(Item(item.key, value, if o.timed then now else item.time))
           case None => Some(Item(key, value, Stamp(o, now)))
  {
    hide Naming.Id, DistinctKeys;
    var k := Position(n, items, n.Id(key));
    if k < |items| {
      var item := Item(items[k].key, value, if o.timed then now else items[k].time);
      if o.capped {
        DropKeepsSound(n, o, items, k);
        LookupDrop(n, items, k, id);
        LookupAppend(n, Without(items, k), item, id);
      } else {
        SamePosition(n, items, items[k := item], id);
      }
    } else {
      EvictKeepsAbsent(n, o, items, n.Id(key));
      LookupAppend(n, Evict(o, items), Item(key, value, Stamp(o, now)), id);
    }
  }

  /** What an eviction takes out of the map: the entry at the head, and only when the table is full. */
  lemma EvictIsDelete<V>(n: Naming, o: Options, items: seq<Item<V>>, id: Id)
    requires Sound(n, o, items)
    ensures Lookup(n, Evict(o, items), id) ==
      if o.capped && |items| == o.cap && id == n.Id(items[0].key) then None else Lookup(n, items, id)
  {
    hide Naming.Id, DistinctKeys;
    if o.capped && |items| == o.cap {
      assert Without(items, 0) == items[1..];
      LookupDrop(n, items, 0, id);
    }
  }

  // ---- iteration ----

  /** Repeated next from a given key. */
  ghost function Walk<V>(n: Naming, items: seq<Item<V>>, from: Option<Key>): (visited: seq<Item<V>>)
    requires DistinctKeys(n, items)
    decreases if from.None? then |items| + 1 else |items| - Position(n, items, n.Id(from.value))
  {
    match NextItem(n, items, from)
    case None => []
    case Some(item) =>
      NextAdvances(n, items, from);
      [item] + Walk(n, items, Some(item.key))
  }

  lemma NextAdvances<V>(n: Naming, items: seq<Item<V>>, from: Option<Key>)
    requires DistinctKeys(n, items) && NextItem(n, items, from).Some?
    ensures var k := if from.None? then 0 else Position(n, items, n.Id(from.value)) + 1;
            k < |items| && NextItem(n, items, from) == Some(items[k])
            && Position(n, items, n.Id(items[k].key)) == k
  {
    var k := if from.None? then 0 else Position(n, items, n.Id(from.value)) + 1;
    PositionUnique(n, items, k);
  }

  lemma {:induction false} WalkFrom<V>(n: Naming, items: seq<Item<V>>, k: nat)
    requires DistinctKeys(n, items) && k < |items|
    ensures Walk(n, items, Some(items[k].key)) == items[k + 1..]
    decreases |items| - k
  {
    hide Naming.Id;
    PositionUnique(n, items, k);
    if k + 1 < |items| {
      WalkFrom(n, items, k + 1);
      assert items[k + 1..] == [items[k + 1]] + items[k + 2..];
    }
  }

  /** Iteration with next visits every entry exactly once, in order. */
  lemma WalkVisitsAll<V>(n: Naming, items: seq<Item<V>>)
    requires DistinctKeys(n, items)
    ensures Walk(n, items, None) == items
  {
    if items != [] {
      WalkFrom(n, items, 0);
      assert items == [items[0]] + items[1..];
    }
  }

  /** There is nothing after a key that is not there, nor after the last one. */
  lemma NextEnds<V>(n: Naming, items: seq<Item<V>>, key: Key)
    ensures NextItem(n, items, Some(key)).None?
       <==> Lookup(n, items, n.Id(key)).None? || Position(n, items, n.Id(key)) == |items| - 1
    ensures NextItem(n, items, None).None? <==> items == []
  {
  }

  // ---- runs ----

  datatype Op<V> =
    | Get(key: Key, now: int)
    | Set(key: Key, value: Option<V>, now: int, room: bool, copied: bool)
    | Clear

  ghost function Step<V>(n: Naming, o: Options, items: seq<Item<V>>, op: Op<V>): seq<Item<V>> {
    match op
    case Get(key, now) => AfterGet(n, o, items, key, now)
    case Set(key, value, now, room, copied) => SetResult(n, o, items, key, value, now, room, copied).1
    case Clear => []
  }

  ghost function Run<V>(n: Naming, o: Options, ops: seq<Op<V>>): seq<Item<V>> {
    if ops == [] then [] else Step(n, o, Run(n, o, ops[..|ops| - 1]), ops[|ops| - 1])
  }

  /** Over every run keys stay distinct and the cap holds, failed operations included. */
  lemma {:induction false} RunIsSound<V>(n: Naming, o: Options, ops: seq<Op<V>>)
    requires o.capped ==> o.cap >= 1
    ensures Sound(n, o, Run(n, o, ops))
  {
    if ops != [] {
      var before := Run(n, o, ops[..|ops| - 1]);
      RunIsSound(n, o, ops[..|ops| - 1]);
      match ops[|ops| - 1]
      case Get(key, now) => GetKeepsSound(n, o, before, key, now);
      case Set(key, value, now, room, copied) =>
        if value.None? {
          RemoveKeepsSound(n, o, before, key);
        } else {
          SetKeepsSound(n, o, before, key, value.value, now);
        }
      case Clear =>
    }
  }

  /** What the operations on an uncapped table say of a key by themselves: the value it has, and when it was set. */
  ghost function Held<V>(n: Naming, o: Options, ops: seq<Op<V>>, id: Id): Option<(V, int)> {
    if ops == [] then None
    else
      var before := Held(n, o, ops[..|ops| - 1], id);
      match ops[|ops| - 1]
      case Get(_, _) => before
      case Clear => None
      case Set(key, value, now, room, copied) =>
        if n.Id(key) != id then before
        else if value.Some? && (before.Some? || (room && (o.dup ==> copied))) then Some((value.value, now))
        else None
  }

  ghost predicate Holds<V>(o: Options, item: Option<Item<V>>, held: Option<(V, int)>) {
    match item
    case None => held == None
    case Some(item) => held.Some? && held.value.0 == item.value && (o.timed ==> held.value.1 == item.time)
  }

  lemma {:induction false} RunHolds<V>(n: Naming, o: Options, ops: seq<Op<V>>, id: Id)
    requires !o.capped
    ensures Holds(o, Lookup(n, Run(n, o, ops), id), Held(n, o, ops, id))
  {
    hide Naming.Id, Sound, Lookup, AfterSet, AfterRemove;
    if ops == [] {
      assert Lookup<V>(n, [], id) == None by { NoneHeld<V>(n, id); }
    } else {
      var prior := ops[..|ops| - 1];
      RunHolds(n, o, prior, id);
      RunIsSound(n, o, prior);
      StepHolds(n, o, Run(n, o, prior), ops[|ops| - 1], id);
    }
  }

  lemma NoneHeld<V>(n: Naming, id: Id)
    ensures Lookup<V>(n, [], id) == None
  {
  }

  lemma StepHolds<V>(n: Naming, o: Options, items: seq<Item<V>>, op: Op<V>, id: Id)
    requires !o.capped && Sound(n, o, items)
    ensures match op
            case Get(_, _) => Lookup(n, Step(n, o, items, op), id) == Lookup(n, items, id)
            case Clear => Lookup(n, Step(n, o, items, op), id) == None
            case Set(key, value, now, room, copied) =>
              var before, after := Lookup(n, items, id), Lookup(n, Step(n, o, items, op), id);
              if n.Id(key) != id then after == before
              else if value.Some? && (before.Some? || (room && (o.dup ==> copied)))
              then after.Some? && after.value.value == value.value && (o.timed ==> after.value.time == now)
              else after == None
  {
    hide Naming.Id, Sound;
    match op
    case Get(key, now) => GetIsLookup(n, o, items, key, now, id);
    case Clear => NoneHeld<V>(n, id);
    case Set(key, value, now, room, copied) =>
      if value.None? {
        RemoveIsDelete(n, o, items, key, id);
      } else {
        SetIsUpdate(n, o, items, key, value.value, now, id);
      }
  }

  /** Over every run of an uncapped table a get answers with the value last set, unless removed, cleared or expired. */
  lemma GetAnswers<V>(n: Naming, o: Options, ops: seq<Op<V>>, key: Key, now: int)
    requires !o.capped
    ensures GetResult(n, o, Run(n, o, ops), key, now) ==
      match Held(n, o, ops, n.Id(key))
      case None => None
      case Some((value, at)) => if !o.timed || now < at + o.timeout then Some(value) else None
  {
    hide Naming.Id, Held, Lookup, Run, GetResult;
    RunHolds(n, o, ops, n.Id(key));
    GetByTime(n, o, Run(n, o, ops), key, now);
  }

  // ---- how long an entry stays ----

  /** The keys that are set or looked up. */
  ghost function Used<V>(n: Naming, ops: seq<Op<V>>): set<Id> {
    set op | op in ops && !op.Clear? :: n.Id(op.key)
  }

  /** The entry is at position k with its value and time; in a capped table only these others are more recent. */
  ghost predicate KeptAt<V>(n: Naming, o: Options, items: seq<Item<V>>, k: nat, id: Id, value: V, at: int,
                            others: set<Id>)
  {
    && k < |items| && n.Id(items[k].key) == id && items[k].value == value && (o.timed ==> items[k].time == at)
    && (o.capped ==> forall j :: k < j < |items| ==> n.Id(items[j].key) in others)
  }

  ghost predicate Kept<V>(n: Naming, o: Options, items: seq<Item<V>>, id: Id, value: V, at: int, others: set<Id>) {
    exists k :: 0 <= k && KeptAt(n, o, items, k, id, value, at, others)
  }

  /** Another entry leaves its place, and one of these keys may come behind all the others. */
  lemma OtherMoves<V>(n: Naming, o: Options, items: seq<Item<V>>, p: nat, back: seq<Item<V>>, id: Id, value: V, at: int,
                      others: set<Id>)
    requires Kept(n, o, items, id, value, at, others) && p < |items| && n.Id(items[p].key) != id
    requires forall item :: item in back ==> n.Id(item.key) in others
    ensures Kept(n, o, Without(items, p) + back, id, value, at, others)
  {
    hide Naming.Id;
    var k :| 0 <= k && KeptAt(n, o, items, k, id, value, at, others);
    var after := Without(items, p) + back;
    assert forall i :: 0 <= i < |items| - 1 ==> after[i] == items[if i < p then i else i + 1];
    assert KeptAt(n, o, after, if p < k then k - 1 else k, id, value, at, others);
  }

  lemma OthersStay<V>(n: Naming, o: Options, items: seq<Item<V>>, back: seq<Item<V>>, id: Id, value: V, at: int,
                      others: set<Id>)
    requires Kept(n, o, items, id, value, at, others)
    requires forall item :: item in back ==> n.Id(item.key) in others
    ensures Kept(n, o, items + back, id, value, at, others)
  {
    hide Naming.Id;
    var k :| 0 <= k && KeptAt(n, o, items, k, id, value, at, others);
    assert KeptAt(n, o, items + back, k, id, value, at, others);
  }

  ghost function Ids<V>(n: Naming, items: seq<Item<V>>): set<Id> {
    set item | item in items :: n.Id(item.key)
  }

  lemma {:induction false} AsManyIds<V>(n: Naming, items: seq<Item<V>>)
    requires DistinctKeys(n, items)
    ensures |Ids(n, items)| == |items|
  {
    hide Naming.Id;
    if items != [] {
      var front, last := items[..|items| - 1], items[|items| - 1];
      AsManyIds(n, front);
      assert items == front + [last];
      assert Ids(n, items) == Ids(n, front) + {n.Id(last.key)};
      assert n.Id(last.key) !in Ids(n, front);
    }
  }

  /** An eviction takes another entry, as long as there are fewer more recent keys than the cap. */
  lemma NotEvicted<V>(n: Naming, o: Options, items: seq<Item<V>>, key: Key, id: Id, value: V, at: int, others: set<Id>)
    requires Sound(n, o, items) && Kept(n, o, items, id, value, at, others) && Lookup(n, items, n.Id(key)).None?
    requires n.Id(key) in others && (o.capped ==> |others| < o.cap)
    ensures Kept(n, o, Evict(o, items), id, value, at, others)
  {
    hide Naming.Id;
    var k :| 0 <= k && KeptAt(n, o, items, k, id, value, at, others);
    if o.capped && |items| == o.cap {
      if k == 0 {
        var rest := items[1..];
        AsManyIds(n, rest);
        assert forall item :: item in rest ==> n.Id(item.key) in others - {n.Id(key)} by {
          forall item | item in rest ensures n.Id(item.key) in others - {n.Id(key)} {
            var j :| 0 <= j < |rest| && rest[j] == item;
            assert items[j + 1] == item;
          }
        }
        Smaller(Ids(n, rest), others - {n.Id(key)});
        assert false;
      }
      assert KeptAt(n, o, items[1..], k - 1, id, value, at, others);
    }
  }

  lemma Smaller<T>(a: set<T>, b: set<T>)
    requires a <= b
    ensures |a| <= |b|
  {
    assert |b| == |a| + |b - a|;
  }

  lemma StepKeeps<V>(n: Naming, o: Options, items: seq<Item<V>>, op: Op<V>, id: Id, value: V, at: int, others: set<Id>)
    requires Sound(n, o, items) && Kept(n, o, items, id, value, at, others)
    requires !op.Clear? && ((n.Id(op.key) == id && op.Get?) || n.Id(op.key) in others)
    requires id !in others && (o.capped ==> |others| < o.cap)
    ensures Kept(n, o, Step(n, o, items, op), id, value, at, others)
  {
    hide Naming.Id, Sound, Kept;
    var p := Position(n, items, n.Id(op.key));
    match op
    case Get(key, now) =>
      if p < |items| && AfterGet(n, o, items, key, now) != items {
        if n.Id(key) == id { SelfToBack(n, o, items, p, id, value, at, others); }
        else { OtherMoves(n, o, items, p, [items[p]], id, value, at, others); }
      }
    case Set(key, given, now, room, copied) =>
      if given.None? {
        if p < |items| {
          OtherMoves(n, o, items, p, [], id, value, at, others);
          assert Without(items, p) + [] == Without(items, p);
        }
      } else if p < |items| {
        SetOther(n, o, items, p, Item(items[p].key, given.value, if o.timed then now else items[p].time), id, value, at,
                 others);
      } else {
        NotEvicted(n, o, items, key, id, value, at, others);
        OthersStay(n, o, Evict(o, items), [Item(key, given.value, Stamp(o, now))], id, value, at, others);
      }
  }

  lemma SelfToBack<V>(n: Naming, o: Options, items: seq<Item<V>>, p: nat, id: Id, value: V, at: int, others: set<Id>)
    requires Sound(n, o, items) && Kept(n, o, items, id, value, at, others) && p < |items| && n.Id(items[p].key) == id
    ensures Kept(n, o, ToBack(items, p), id, value, at, others)
  {
    hide Naming.Id;
    var k :| 0 <= k && KeptAt(n, o, items, k, id, value, at, others);
    assert k == p;
    assert KeptAt(n, o, ToBack(items, p), |items| - 1, id, value, at, others);
  }

  lemma SetOther<V>(n: Naming, o: Options, items: seq<Item<V>>, p: nat, item: Item<V>, id: Id, value: V, at: int,
                    others: set<Id>)
    requires Kept(n, o, items, id, value, at, others) && p < |items| && n.Id(items[p].key) != id
    requires n.Id(item.key) == n.Id(items[p].key) && n.Id(item.key) in others
    ensures Kept(n, o, if o.capped then Without(items, p) + [item] else items[p := item], id, value, at, others)
  {
    hide Naming.Id;
    if o.capped {
      OtherMoves(n, o, items, p, [item], id, value, at, others);
    } else {
      var k :| 0 <= k && KeptAt(n, o, items, k, id, value, at, others);
      assert KeptAt(n, o, items[p := item], k, id, value, at, others);
    }
  }

  lemma {:induction false} RunKeeps<V>(n: Naming, o: Options, ops: seq<Op<V>>, between: seq<Op<V>>, id: Id, value: V,
                                       at: int, others: set<Id>)
    requires (o.capped ==> o.cap >= 1) && Kept(n, o, Run(n, o, ops), id, value, at, others)
    requires forall op :: op in between ==> !op.Clear? && (n.Id(op.key) == id ==> op.Get?)
    requires Used(n, between) - {id} <= others && id !in others && (o.capped ==> |others| < o.cap)
    ensures Kept(n, o, Run(n, o, ops + between), id, value, at, others)
  {
    hide Naming.Id, Sound, Kept, Step;
    if between == [] {
      assert ops + between == ops;
    } else {
      var k := |between| - 1;
      assert (ops + between)[..|ops| + k] == ops + between[..k];
      assert between[k] in between && forall op :: op in between[..k] ==> op in between;
      assert n.Id(between[k].key) in Used(n, between);
      assert Used(n, between[..k]) <= Used(n, between);
      RunKeeps(n, o, ops, between[..k], id, value, at, others);
      RunIsSound(n, o, ops + between[..k]);
      StepKeeps(n, o, Run(n, o, ops + between[..k]), between[k], id, value, at, others);
    }
  }

  lemma JustSet<V>(n: Naming, o: Options, items: seq<Item<V>>, op: Op<V>, others: set<Id>)
    requires op.Set? && op.value.Some? && SetResult(n, o, items, op.key, op.value, op.now, op.room, op.copied).0
    ensures Kept(n, o, Step(n, o, items, op), n.Id(op.key), op.value.value, op.now, others)
  {
    hide Naming.Id, Evict;
    var k, after := Position(n, items, n.Id(op.key)), Step(n, o, items, op);
    var at := if k < |items| && !o.capped then k else |after| - 1;
    assert KeptAt(n, o, after, at, n.Id(op.key), op.value.value, op.now, others);
  }

  lemma KeptIsFound<V>(n: Naming, o: Options, items: seq<Item<V>>, key: Key, value: V, at: int, others: set<Id>,
                       now: int)
    requires Sound(n, o, items) && Kept(n, o, items, n.Id(key), value, at, others)
    ensures GetResult(n, o, items, key, now) == if !o.timed || now < at + o.timeout then Some(value) else None
  {
    hide Naming.Id;
    var k :| 0 <= k && KeptAt(n, o, items, k, n.Id(key), value, at, others);
    PositionUnique(n, items, k);
  }

  /**
    * After a successful set a get returns the value, within the timeout if there is one, as long as the key is not set
    * again, nothing is cleared, and, in a capped table, fewer other keys than the cap have been used since.
    */
  lemma SetThenGet<V>(n: Naming, o: Options, before: seq<Op<V>>, op: Op<V>, between: seq<Op<V>>, now: int)
    requires op.Set? && op.value.Some?
    requires SetResult(n, o, Run(n, o, before), op.key, op.value, op.now, op.room, op.copied).0
    requires forall other :: other in between ==> !other.Clear? && (n.Id(other.key) == n.Id(op.key) ==> other.Get?)
    requires o.capped ==> o.cap >= 1 && |Used(n, between) - {n.Id(op.key)}| < o.cap
    ensures GetResult(n, o, Run(n, o, before + [op] + between), op.key, now) ==
      if !o.timed || now < op.now + o.timeout then op.value else None
  {
    hide Naming.Id, Sound, Kept, GetResult, SetResult, Step;
    var others := Used(n, between) - {n.Id(op.key)};
    assert (before + [op])[..|before|] == before;
    JustSet(n, o, Run(n, o, before), op, others);
    RunKeeps(n, o, before + [op], between, n.Id(op.key), op.value.value, op.now, others);
    RunIsSound(n, o, before + [op] + between);
    KeptIsFound(n, o, Run(n, o, before + [op] + between), op.key, op.value.value, op.now, others, now);
  }

  /** The operation makes the entry the most recent one: any use if capped, otherwise only its insertion. */
  ghost predicate Refreshes<V>(n: Naming, o: Options, items: seq<Item<V>>, op: Op<V>, id: Id) {
    match op
    case Get(key, now) => o.capped && n.Id(key) == id && GetResult(n, o, items, key, now).Some?
    case Set(key, value, now, room, copied) =>
      && n.Id(key) == id && value.Some? && (Has(n, items, key) ==> o.capped)
      && SetResult(n, o, items, key, value, now, room, copied).0
    case Clear => false
  }

  /** The number of the last operation of the run that refreshed the entry; 0 if there is none. */
  ghost function LastUse<V>(n: Naming, o: Options, ops: seq<Op<V>>, id: Id): (at: nat)
    ensures at <= |ops|
  {
    if ops == [] then 0
    else if Refreshes(n, o, Run(n, o, ops[..|ops| - 1]), ops[|ops| - 1], id) then |ops|
    else LastUse(n, o, ops[..|ops| - 1], id)
  }

  ghost predicate ByRecency<V>(n: Naming, o: Options, ops: seq<Op<V>>, items: seq<Item<V>>) {
    && (forall i :: 0 <= i < |items| ==> LastUse(n, o, ops, n.Id(items[i].key)) > 0)
    && (forall i, j :: 0 <= i < j < |items| ==>
          LastUse(n, o, ops, n.Id(items[i].key)) < LastUse(n, o, ops, n.Id(items[j].key)))
  }

  /** Over every run the list is sorted by last use: from the least recently to the most recently used entry. */
  lemma {:induction false} RunByRecency<V>(n: Naming, o: Options, ops: seq<Op<V>>)
    requires o.capped ==> o.cap >= 1
    ensures ByRecency(n, o, ops, Run(n, o, ops))
  {
    if ops != [] {
      var prior := ops[..|ops| - 1];
      RunByRecency(n, o, prior);
      RunIsSound(n, o, prior);
      StepByRecency(n, o, ops);
    }
  }

  lemma StepByRecency<V>(n: Naming, o: Options, ops: seq<Op<V>>)
    requires ops != [] && Sound(n, o, Run(n, o, ops[..|ops| - 1]))
    requires ByRecency(n, o, ops[..|ops| - 1], Run(n, o, ops[..|ops| - 1]))
    ensures ByRecency(n, o, ops, Run(n, o, ops))
  {
    hide Naming.Id, Sound, ByRecency, LastUse, Refreshes, SetResult, AfterGet;
    var items, op := Run(n, o, ops[..|ops| - 1]), ops[|ops| - 1];
    if op.Clear? {
      NoneByRecency(n, o, ops);
    } else if Refreshes(n, o, items, op, n.Id(op.key)) {
      RefreshStep(n, o, ops, items, op);
    } else {
      QuietByRecency(n, o, ops, items);
      QuietStep(n, o, ops, items, op);
    }
  }

  /** An operation that refreshes its entry puts it behind all the others. */
  lemma RefreshStep<V>(n: Naming, o: Options, ops: seq<Op<V>>, items: seq<Item<V>>, op: Op<V>)
    requires ops != [] && items == Run(n, o, ops[..|ops| - 1]) && op == ops[|ops| - 1] && !op.Clear?
    requires Sound(n, o, items) && ByRecency(n, o, ops[..|ops| - 1], items) && Refreshes(n, o, items, op, n.Id(op.key))
    ensures ByRecency(n, o, ops, Step(n, o, items, op))
  {
    hide Naming.Id, DistinctKeys, ByRecency, LastUse, Run;
    var prior, id := ops[..|ops| - 1], n.Id(op.key);
    var k := Position(n, items, id);
    var rest := if k < |items| then Without(items, k) else Evict(o, items);
    if k < |items| {
      DropByRecency(n, o, prior, items, k);
      DropKeepsSound(n, o, items, k);
    } else {
      EvictByRecency(n, o, prior, items);
      EvictKeepsAbsent(n, o, items, id);
    }
    OthersByRecency(n, o, ops, rest);
    var after := Step(n, o, items, op);
    AppendByRecency(n, o, ops, rest, after[|rest|]);
    assert after == rest + [after[|rest|]];
  }

  /** An operation that refreshes nothing drops an entry, renews one in place, or leaves the list alone. */
  lemma QuietStep<V>(n: Naming, o: Options, ops: seq<Op<V>>, items: seq<Item<V>>, op: Op<V>)
    requires !op.Clear? && ByRecency(n, o, ops, items) && !Refreshes(n, o, items, op, n.Id(op.key))
    ensures ByRecency(n, o, ops, Step(n, o, items, op))
  {
    hide Naming.Id, ByRecency, LastUse, Run;
    var k := Position(n, items, n.Id(op.key));
    if op.Set? {
      if op.value.None? {
        if k < |items| { DropByRecency(n, o, ops, items, k); }
      } else if k < |items| {
        RenewByRecency(n, o, ops, items, k, Step(n, o, items, op)[k]);
      } else {
        EvictByRecency(n, o, ops, items);
      }
    }
  }

  lemma EvictByRecency<V>(n: Naming, o: Options, ops: seq<Op<V>>, items: seq<Item<V>>)
    requires ByRecency(n, o, ops, items)
    ensures ByRecency(n, o, ops, Evict(o, items))
  {
    hide Naming.Id, ByRecency, LastUse, Run;
    if items != [] {
      DropByRecency(n, o, ops, items, 0);
      assert Without(items, 0) == items[1..];
    }
  }

  lemma NoneByRecency<V>(n: Naming, o: Options, ops: seq<Op<V>>)
    ensures ByRecency(n, o, ops, [])
  {
  }

  lemma DropByRecency<V>(n: Naming, o: Options, ops: seq<Op<V>>, items: seq<Item<V>>, k: nat)
    requires ByRecency(n, o, ops, items) && k < |items|
    ensures ByRecency(n, o, ops, Without(items, k))
  {
    hide Naming.Id, LastUse;
    var rest := Without(items, k);
    assert forall i :: 0 <= i < |rest| ==> rest[i] == items[if i < k then i else i + 1];
  }

  lemma RenewByRecency<V>(n: Naming, o: Options, ops: seq<Op<V>>, items: seq<Item<V>>, k: nat, item: Item<V>)
    requires ByRecency(n, o, ops, items) && k < |items| && n.Id(item.key) == n.Id(items[k].key)
    ensures ByRecency(n, o, ops, items[k := item])
  {
    hide Naming.Id, LastUse;
    var items' := items[k := item];
    assert forall i :: 0 <= i < |items| ==> n.Id(items'[i].key) == n.Id(items[i].key);
  }

  lemma AppendByRecency<V>(n: Naming, o: Options, ops: seq<Op<V>>, rest: seq<Item<V>>, item: Item<V>)
    requires ByRecency(n, o, ops, rest) && ops != []
    requires forall i :: 0 <= i < |rest| ==> LastUse(n, o, ops, n.Id(rest[i].key)) < |ops|
    requires Refreshes(n, o, Run(n, o, ops[..|ops| - 1]), ops[|ops| - 1], n.Id(item.key))
    ensures ByRecency(n, o, ops, rest + [item])
  {
    hide Naming.Id;
    assert LastUse(n, o, ops, n.Id(item.key)) == |ops|;
    hide LastUse, Refreshes;
  }

  /** An operation that refreshes nothing leaves every last use as it was. */
  lemma QuietByRecency<V>(n: Naming, o: Options, ops: seq<Op<V>>, items: seq<Item<V>>)
    requires ops != [] && !ops[|ops| - 1].Clear? && ByRecency(n, o, ops[..|ops| - 1], items)
    requires !Refreshes(n, o, Run(n, o, ops[..|ops| - 1]), ops[|ops| - 1], n.Id(ops[|ops| - 1].key))
    ensures ByRecency(n, o, ops, items)
  {
    hide Naming.Id;
    forall i | 0 <= i < |items|
      ensures LastUse(n, o, ops, n.Id(items[i].key)) == LastUse(n, o, ops[..|ops| - 1], n.Id(items[i].key))
    {
    }
  }

  /** Entries the last operation is not about keep their last use. */
  lemma OthersByRecency<V>(n: Naming, o: Options, ops: seq<Op<V>>, rest: seq<Item<V>>)
    requires ops != [] && !ops[|ops| - 1].Clear? && ByRecency(n, o, ops[..|ops| - 1], rest)
    requires forall i :: 0 <= i < |rest| ==> n.Id(rest[i].key) != n.Id(ops[|ops| - 1].key)
    ensures ByRecency(n, o, ops, rest)
    ensures forall i :: 0 <= i < |rest| ==> LastUse(n, o, ops, n.Id(rest[i].key)) < |ops|
  {
  }

  /** What a full capped table evicts is the entry whose last set or successful get lies furthest back. */
  lemma EvictsLeastRecent<V>(n: Naming, o: Options, ops: seq<Op<V>>, k: nat)
    requires o.capped && o.cap >= 1 && k < |Run(n, o, ops)|
    ensures var items := Run(n, o, ops); var id := n.Id(items[k].key);
            Lookup(n, Evict(o, items), id).None? <==>
              |items| == o.cap &&
              forall j :: 0 <= j < |items| && j != k ==> LastUse(n, o, ops, id) < LastUse(n, o, ops, n.Id(items[j].key))
  {
    hide Naming.Id;
    var items := Run(n, o, ops);
    RunByRecency(n, o, ops);
    RunIsSound(n, o, ops);
    EvictIsDelete(n, o, items, n.Id(items[k].key));
    PositionUnique(n, items, k);
    PositionUnique(n, items, 0);
  }
}
