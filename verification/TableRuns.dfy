/** Whole runs of a table: any sequence of calls behaves as the same calls on an ordered map. */
module TableRuns {
  import opened Wrappers
  import opened Keys
  import opened OrderedMap
  import opened MapLaws
  import opened TableState
  import opened TableSizes
  import opened Table
  import opened Primes

  datatype Call<V> =
    | DoGet(key: Key, now: int)
    | DoSet(key: Key, value: Option<V>, now: int, tableMemory: bool, keyMemory: bool)
    | DoNext(from: Option<Key>)
    | DoClear

  datatype Answer<V> = Got(value: Option<V>) | WasSet(ok: bool) | Reached(entry: Option<(Key, V)>) | Cleared

  /** The operation of the ordered map that a call amounts to; a next changes nothing. */
  ghost function Effect<V>(call: Call<V>, room: bool): Option<Op<V>> {
    match call
    case DoGet(key, now) => Some(Get(key, now))
    case DoSet(key, value, now, _, keyMemory) => Some(Set(key, value, now, room, keyMemory))
    case DoNext(_) => None
    case DoClear => Some(Clear)
  }

  ghost function WithEffect<V>(ops: seq<Op<V>>, e: Option<Op<V>>): seq<Op<V>> {
    if e.Some? then ops + [e.value] else ops
  }

  ghost function Effects<V>(calls: seq<Call<V>>, rooms: seq<bool>): seq<Op<V>>
    requires |rooms| == |calls|
  {
    if calls == [] then []
    else
      var n := |calls| - 1;
      WithEffect(Effects(calls[..n], rooms[..n]), Effect(calls[n], rooms[n]))
  }

  /** What the ordered map answers. */
  ghost function Expected<V>(n: Naming, o: Options, items: seq<Item<V>>, call: Call<V>, room: bool): Answer<V> {
    match call
    case DoGet(key, now) => Got(GetResult(n, o, items, key, now))
    case DoSet(key, value, now, _, keyMemory) => WasSet(SetResult(n, o, items, key, value, now, room, keyMemory).0)
    case DoNext(from) =>
      Reached(match NextItem(n, items, from) case None => None case Some(item) => Some((item.key, item.value)))
    case DoClear => Cleared
  }

  /** With memory for a larger table only the largest size limits the number of entries. */
  ghost predicate Unrestricted<V>(most: nat, items: seq<Item<V>>, call: Call<V>) {
    call.DoSet? && call.tableMemory && |items| < most
  }

  /** Every answer is that of the ordered map after the calls before it; room is refused only for want of memory. */
  ghost predicate Answered<V>(n: Naming, o: Options, most: nat, calls: seq<Call<V>>, rooms: seq<bool>,
                              answers: seq<Answer<V>>)
  {
    && |calls| == |rooms| == |answers|
    && forall i :: 0 <= i < |calls| ==>
         var items := Run(n, o, Effects(calls[..i], rooms[..i]));
         answers[i] == Expected(n, o, items, calls[i], rooms[i]) && (Unrestricted(most, items, calls[i]) ==> rooms[i])
  }

  lemma OneMoreOp<V>(n: Naming, o: Options, ops: seq<Op<V>>, op: Op<V>)
    ensures Run(n, o, ops + [op]) == Step(n, o, Run(n, o, ops), op)
  {
    assert (ops + [op])[..|ops|] == ops;
  }

  lemma OneMoreCall<V>(n: Naming, o: Options, most: nat, calls: seq<Call<V>>, rooms: seq<bool>, answers: seq<Answer<V>>,
                       call: Call<V>, room: bool, answer: Answer<V>)
    requires Answered(n, o, most, calls, rooms, answers)
    requires answer == Expected(n, o, Run(n, o, Effects(calls, rooms)), call, room)
    requires Unrestricted(most, Run(n, o, Effects(calls, rooms)), call) ==> room
    ensures Answered(n, o, most, calls + [call], rooms + [room], answers + [answer])
    ensures Effects(calls + [call], rooms + [room]) == WithEffect(Effects(calls, rooms), Effect(call, room))
  {
    hide Expected, Unrestricted, Run, Effect, WithEffect;
    var k := |calls|;
    assert (calls + [call])[..k] == calls && (rooms + [room])[..k] == rooms;
    forall i | 0 <= i < k ensures (calls + [call])[..i] == calls[..i] && (rooms + [room])[..i] == rooms[..i] {}
  }

  /** One call, and whether there was room for a new entry. */
  method Perform<V>(t: Table<V>, call: Call<V>) returns (answer: Answer<V>, ghost room: bool)
    requires t.Valid()
    modifies t.Repr()
    ensures t.Valid() && fresh(t.Repr() - old(t.Repr())) && t.Naming() == old(t.Naming()) && t.options == old(t.options)
    ensures answer == Expected(t.Naming(), t.options, old(t.Contents()), call, room)
    ensures Unrestricted(Load(t.sizes[|t.sizes| - 1]), old(t.Contents()), call) ==> room
    ensures t.Contents() == match Effect(call, room) case None => old(t.Contents())
                            case Some(op) => Step(t.Naming(), t.options, old(t.Contents()), op)
  {
    hide Fits, Ordered, ListOf, IsPrime, Load, OQ.Linked, Position, Evict, GetResult, AfterGet, SetResult, NextItem;
    room := |Evict(t.options, t.Contents())| < t.load;
    AtMostLargest(t.sizes, t.alloc);
    EvictShrinks(t.options, t.Contents());
    match call
    case DoGet(key, now) =>
      var r := t.Get(key, now);
      answer := Got(r);
    case DoSet(key, value, now, tableMemory, keyMemory) =>
      room := room || (tableMemory && t.alloc < t.sizes[|t.sizes| - 1]);
      var ok := t.Set(key, value, now, tableMemory, keyMemory);
      answer := WasSet(ok);
    case DoNext(from) =>
      var r := t.Next(from);
      answer := Reached(r);
    case DoClear =>
      t.Clear();
      answer := Cleared;
  }

  /** Any run from an empty table: answers and contents are those of the ordered map, for any hash and any failures. */
  method PerformAll<V>(t: Table<V>, calls: seq<Call<V>>) returns (answers: seq<Answer<V>>, ghost rooms: seq<bool>)
    requires t.Valid() && t.Contents() == []
    modifies t.Repr()
    ensures t.Valid() && t.Naming() == old(t.Naming()) && t.options == old(t.options)
    ensures Answered(t.Naming(), t.options, Load(t.sizes[|t.sizes| - 1]), calls, rooms, answers)
    ensures t.Contents() == Run(t.Naming(), t.options, Effects(calls, rooms))
  {
    hide Fits, Ordered, ListOf, AscendingPrimes, Load, OQ.Linked, Expected, Unrestricted, Step, Run, Answered, Effect;
    ghost var n, o, most := t.Naming(), t.options, Load(t.sizes[|t.sizes| - 1]);
    answers, rooms := [], [];
    NoCalls<V>(n, o, most);
    assert calls[..0] == [];
    for i := 0 to |calls|
      invariant t.Valid() && fresh(t.Repr() - old(t.Repr())) && t.Naming() == n && t.options == o
      invariant Answered(n, o, most, calls[..i], rooms, answers) && |rooms| == i
      invariant t.Contents() == Run(n, o, Effects(calls[..i], rooms))
    {
      ghost var room;
      var answer;
      ghost var ops := Effects(calls[..i], rooms);
      answer, room := Perform(t, calls[i]);
      OneMoreCall(n, o, most, calls[..i], rooms, answers, calls[i], room, answer);
      EffectRun(n, o, ops, calls[i], room);
      assert calls[..i + 1] == calls[..i] + [calls[i]];
      answers, rooms := answers + [answer], rooms + [room];
    }
    assert calls[..|calls|] == calls;
  }

  lemma NoCalls<V>(n: Naming, o: Options, most: nat)
    ensures Answered<V>(n, o, most, [], [], []) && Run<V>(n, o, Effects<V>([], [])) == []
  {
  }

  lemma EffectRun<V>(n: Naming, o: Options, ops: seq<Op<V>>, call: Call<V>, room: bool)
    ensures Run(n, o, WithEffect(ops, Effect(call, room)))
         == match Effect(call, room) case None => Run(n, o, ops) case Some(op) => Step(n, o, Run(n, o, ops), op)
  {
    hide Run, Step;
    var e := Effect(call, room);
    if e.Some? { OneMoreOp(n, o, ops, e.value); }
  }

  lemma AtMostLargest(sizes: seq<nat>, alloc: nat)
    requires ValidSizes(sizes) && alloc in sizes
    ensures alloc < sizes[|sizes| - 1] || Load(alloc) == Load(sizes[|sizes| - 1])
  {
  }

  lemma EvictShrinks<V>(o: Options, items: seq<Item<V>>)
    ensures |Evict(o, items)| <= |items|
  {
  }
}
