/** What a table is for: an ordered key-value list with unique keys, optional expiry and an optional cap. */
module OrderedMap {
  import opened Wrappers
  import opened Keys
  import opened Sequences

  datatype Item<V> = Item(key: Key, value: V, time: int)

  /** How keys are told apart: fixed while a table holds entries. */
  datatype Naming = Naming(hashOf: Hash, ci: bool) {
    function Id(key: Key): Id {
      IdOf(hashOf, ci, key)
    }
  }

  datatype Options = Options(dup: bool, free: bool, timed: bool, timeout: int, capped: bool, cap: nat)

  ghost predicate DistinctKeys<V>(n: Naming, items: seq<Item<V>>) {
    forall i, j :: 0 <= i < j < |items| ==> n.Id(items[i].key) != n.Id(items[j].key)
  }

  /** The index of the entry with this identity, or |items|. */
  function Position<V>(n: Naming, items: seq<Item<V>>, id: Id): (k: nat)
    ensures k <= |items|
    ensures k < |items| ==> n.Id(items[k].key) == id
    ensures forall i :: 0 <= i < k ==> n.Id(items[i].key) != id
  {
    if items == [] || n.Id(items[0].key) == id then 0 else 1 + Position(n, items[1..], id)
  }

  function Has<V>(n: Naming, items: seq<Item<V>>, key: Key): bool {
    Position(n, items, n.Id(key)) < |items|
  }

  function ToBack<V>(items: seq<Item<V>>, k: nat): seq<Item<V>>
    requires k < |items|
  {
    Without(items, k) + [items[k]]
  }

  predicate Expired<V>(o: Options, item: Item<V>, now: int) {
    o.timed && item.time + o.timeout <= now
  }

  function GetResult<V>(n: Naming, o: Options, items: seq<Item<V>>, key: Key, now: int): Option<V> {
    var k := Position(n, items, n.Id(key));
    if k == |items| || Expired(o, items[k], now) then None else Some(items[k].value)
  }

  /** A successful get of a capped table makes the entry the most recent one; nothing else changes. */
  function AfterGet<V>(n: Naming, o: Options, items: seq<Item<V>>, key: Key, now: int): seq<Item<V>> {
    if o.capped && GetResult(n, o, items, key, now).Some?
    then ToBack(items, Position(n, items, n.Id(key)))
    else items
  }

  function Stamp(o: Options, now: int): int {
    if o.timed then now else 0
  }

  /** A full capped table gives up its least recent entry. */
  function Evict<V>(o: Options, items: seq<Item<V>>): seq<Item<V>> {
    if o.capped && |items| == o.cap && items != [] then items[1..] else items
  }

  function AfterSet<V>(n: Naming, o: Options, items: seq<Item<V>>, key: Key, value: V, now: int): seq<Item<V>> {
    var k := Position(n, items, n.Id(key));
    if k == |items| then
      Evict(o, items) + [Item(key, value, Stamp(o, now))]
    else
      var item := Item(items[k].key, value, if o.timed then now else items[k].time);
      if o.capped then Without(items, k) + [item] else items[k := item]
  }

  function AfterRemove<V>(n: Naming, items: seq<Item<V>>, key: Key): seq<Item<V>> {
    var k := Position(n, items, n.Id(key));
    if k == |items| then items else Without(items, k)
  }

  /** A whole set operation: `room` says whether the table can take one more entry, `copied` whether it has the key. */
  function SetResult<V>(n: Naming, o: Options, items: seq<Item<V>>, key: Key, value: Option<V>, now: int,
                        room: bool, copied: bool): (bool, seq<Item<V>>)
  {
    match value
    case None => (true, AfterRemove(n, items, key))
    case Some(v) =>
      if Has(n, items, key) || (room && (o.dup ==> copied)) then (true, AfterSet(n, o, items, key, v, now))
      else (false, Evict(o, items))
  }

  function NextItem<V>(n: Naming, items: seq<Item<V>>, key: Option<Key>): Option<Item<V>> {
    match key
    case None => if items == [] then None else Some(items[0])
    case Some(key) =>
      var k := Position(n, items, n.Id(key));
      if k + 1 < |items| then Some(items[k + 1]) else None
  }

  /** Positions are determined by identity once keys are distinct. */
  lemma PositionUnique<V>(n: Naming, items: seq<Item<V>>, k: nat)
    requires DistinctKeys(n, items) && k < |items|
    ensures Position(n, items, n.Id(items[k].key)) == k
  {
  }

  /** Replacing a value is an update in place, after the move to the back that a cap asks for. */
  lemma SetPresent<V>(n: Naming, o: Options, items: seq<Item<V>>, key: Key, value: V, now: int, k: nat)
    requires k < |items| && Position(n, items, n.Id(key)) == k
    ensures var moved, k' := if o.capped then ToBack(items, k) else items, if o.capped then |items| - 1 else k;
            AfterSet(n, o, items, key, value, now)
            == moved[k' := Item(items[k].key, value, if o.timed then now else items[k].time)]
  {
  }

  lemma SetAbsent<V>(n: Naming, o: Options, items: seq<Item<V>>, key: Key, value: V, now: int)
    requires !Has(n, items, key)
    ensures AfterSet(n, o, items, key, value, now) == Evict(o, items) + [Item(key, value, Stamp(o, now))]
  {
  }

  lemma EvictKeepsAbsent<V>(n: Naming, o: Options, items: seq<Item<V>>, id: Id)
    requires Position(n, items, id) == |items|
    ensures Position(n, Evict(o, items), id) == |Evict(o, items)|
  {
  }

  ghost predicate WithinCap<V>(o: Options, items: seq<Item<V>>) {
    o.capped ==> 1 <= o.cap && |items| <= o.cap
  }

  /** What every operation keeps. */
  ghost predicate Sound<V>(n: Naming, o: Options, items: seq<Item<V>>) {
    DistinctKeys(n, items) && WithinCap(o, items)
  }

  lemma DropKeepsSound<V>(n: Naming, o: Options, items: seq<Item<V>>, k: nat)
    requires Sound(n, o, items) && k < |items|
    ensures Sound(n, o, Without(items, k)) && Position(n, Without(items, k), n.Id(items[k].key)) == |items| - 1
  {
    var rest := Without(items, k);
    assert forall i :: 0 <= i < |rest| ==> rest[i] == items[if i < k then i else i + 1];
  }

  lemma AppendKeepsDistinct<V>(n: Naming, items: seq<Item<V>>, item: Item<V>)
    requires DistinctKeys(n, items) && Position(n, items, n.Id(item.key)) == |items|
    ensures DistinctKeys(n, items + [item])
  {
  }

  lemma ToBackKeepsSound<V>(n: Naming, o: Options, items: seq<Item<V>>, k: nat)
    requires Sound(n, o, items) && k < |items|
    ensures Sound(n, o, ToBack(items, k))
  {
    DropKeepsSound(n, o, items, k);
    AppendKeepsDistinct(n, Without(items, k), items[k]);
  }

  lemma GetKeepsSound<V>(n: Naming, o: Options, items: seq<Item<V>>, key: Key, now: int)
    requires Sound(n, o, items)
    ensures Sound(n, o, AfterGet(n, o, items, key, now))
  {
    var k := Position(n, items, n.Id(key));
    if k < |items| { ToBackKeepsSound(n, o, items, k); }
  }

  lemma SetKeepsSound<V>(n: Naming, o: Options, items: seq<Item<V>>, key: Key, value: V, now: int)
    requires Sound(n, o, items)
    ensures Sound(n, o, AfterSet(n, o, items, key, value, now))
  {
    var k := Position(n, items, n.Id(key));
    if k < |items| {
      DropKeepsSound(n, o, items, k);
      var item := items[k].(value := value, time := if o.timed then now else items[k].time);
      AppendKeepsDistinct(n, Without(items, k), item);
    } else {
      AppendKeepsDistinct(n, Evict(o, items), Item(key, value, Stamp(o, now)));
    }
  }

  lemma RemoveKeepsSound<V>(n: Naming, o: Options, items: seq<Item<V>>, key: Key)
    requires Sound(n, o, items)
    ensures Sound(n, o, AfterRemove(n, items, key))
  {
    var k := Position(n, items, n.Id(key));
    if k < |items| { DropKeepsSound(n, o, items, k); }
  }
}
