/** What the profiler reports, told from a whole sequence of hook events alone (src/lws_profiler.c). */
module ProfilerRuns {
  import opened Keys
  import opened Profiler

  /** The clock and the memory use known after some events. */
  ghost function ClockAfter(start: Timespec, run: seq<HookCall>): Timespec {
    if run == [] then start else run[|run| - 1].exit
  }

  ghost function MemoryAfter(run: seq<HookCall>): nat {
    if run == [] then 0 else run[|run| - 1].memory
  }

  /** The clock never runs backwards. */
  ghost predicate Timely(start: Timespec, run: seq<HookCall>) {
    run == [] || (
      var before, h := run[..|run| - 1], run[|run| - 1];
      && Timely(start, before) && h.entry.Reading() && h.exit.Reading()
      && ClockAfter(start, before).Ns() <= h.entry.Ns() <= h.exit.Ns())
  }

  /** The functions that are running, the innermost last. */
  ghost function Active(run: seq<HookCall>): seq<Key> {
    if run == [] then []
    else
      var h := run[|run| - 1];
      Remaining(h.event, Active(run[..|run| - 1])) + if h.event.Return? then [] else [h.key]
  }

  /** Calls less returns. */
  ghost function Balance(run: seq<HookCall>): int {
    if run == [] then 0
    else
      var h := run[|run| - 1];
      Balance(run[..|run| - 1]) + if h.event.Call? then 1 else if h.event.Return? then -1 else 0
  }

  /** Every return and every tail call leaves a function that was called in this run. */
  ghost predicate Matched(run: seq<HookCall>) {
    run == [] || (Matched(run[..|run| - 1]) && (run[|run| - 1].event.Call? || Balance(run[..|run| - 1]) > 0))
  }

  /**
    * The functions running before a matched run go on running below those it leaves, which are as many as there are
    * calls less returns; so a call with all that it does and its return change nothing, tail calls included.
    */
  lemma {:induction false} Nested(run: seq<HookCall>, inner: seq<HookCall>)
    requires Matched(inner)
    ensures Active(run) <= Active(run + inner) && |Active(run + inner)| == |Active(run)| + Balance(inner)
    ensures Balance(inner) == 0 ==> Active(run + inner) == Active(run)
  {
    if inner == [] {
      assert run + inner == run;
    } else {
      var k := |inner| - 1;
      assert (run + inner)[..|run| + k] == run + inner[..k];
      Nested(run, inner[..k]);
      var before, after := Active(run + inner[..k]), Active(run + inner);
      assert after == Remaining(inner[k].event, before) + if inner[k].event.Return? then [] else [inner[k].key];
      hide Active;
    }
  }

  /** The function entered last is the innermost one; a tail call takes the place of the function that makes it. */
  lemma Entering(run: seq<HookCall>, h: HookCall)
    requires !h.event.Return?
    ensures var before, after := Active(run), Active(run + [h]);
      && after != [] && after[|after| - 1] == h.key
      && (h.event.Call? || before == [] ==> |after| == |before| + 1 && before <= after)
      && (h.event.TailCall? && before != [] ==> |after| == |before| && after[..|after| - 1] == before[..|before| - 1])
  {
    assert (run + [h])[..|run|] == run;
  }

  /** A function that is called and returns is gone, and so is one that it ends with a tail call of. */
  lemma CallAndReturn(run: seq<HookCall>, call: HookCall, tail: HookCall, end: HookCall)
    requires call.event.Call? && tail.event.TailCall? && end.event.Return?
    ensures Active(run + [call, end]) == Active(run) == Active(run + [call, tail, end])
  {
    hide Active;
    assert [call][..0] == [];
    assert Matched([call]) && Balance([call]) == 1;
    assert [call, end][..1] == [call] && [call, tail][..1] == [call] && [call, tail, end][..2] == [call, tail];
    assert Matched([call, tail]) && Balance([call, tail]) == 1;
    Nested(run, [call, end]);
    Nested(run, [call, tail, end]);
  }

  /** Over every matched run from the start there are as many functions running as calls less returns. */
  lemma RunDepth(run: seq<HookCall>)
    requires Matched(run)
    ensures |Active(run)| == Balance(run)
  {
    Nested([], run);
    assert [] + run == run;
  }

  /** The time during which some function was running, without the time spent in hooks. */
  ghost function RunningTime(start: Timespec, run: seq<HookCall>): int {
    if run == [] then 0
    else
      var before := run[..|run| - 1];
      RunningTime(start, before)
        + if Active(before) == [] then 0 else run[|run| - 1].entry.Ns() - ClockAfter(start, before).Ns()
  }

  /** How many functions were entered. */
  ghost function Entries(run: seq<HookCall>): nat {
    if run == [] then 0 else Entries(run[..|run| - 1]) + if run[|run| - 1].event.Return? then 0 else 1
  }

  /** What a function is owed: time as the innermost one, time among the running ones, memory growth, and calls. */
  datatype Account = Account(self: int, present: int, memory: nat, calls: nat)

  const NOTHING := Account(0, 0, 0, 0)

  ghost function AccountOf(start: Timespec, run: seq<HookCall>, key: Key): Account {
    if run == [] then NOTHING
    else
      var before := run[..|run| - 1];
      Charged(AccountOf(start, before, key), Active(before), ClockAfter(start, before), MemoryAfter(before),
              run[|run| - 1], key)
  }

  ghost function Charged(a: Account, keys: seq<Key>, from: Timespec, memory: nat, h: HookCall, key: Key): Account {
    var innermost := keys != [] && keys[|keys| - 1] == key;
    Account(a.self + (if innermost then h.entry.Ns() - from.Ns() else 0),
            a.present + (if key in keys then h.entry.Ns() - from.Ns() else 0)
              + (if key in Remaining(h.event, keys) then h.exit.Ns() - h.entry.Ns() else 0),
            a.memory + (if innermost && h.memory > memory then h.memory - memory else 0),
            a.calls + (if !h.event.Return? && h.key == key then 1 else 0))
  }

  /** A function that was never entered is owed nothing. */
  lemma {:induction false} NeverEntered(start: Timespec, run: seq<HookCall>, key: Key)
    requires AccountOf(start, run, key).calls == 0
    ensures AccountOf(start, run, key) == NOTHING && key !in Active(run)
  {
    if run != [] { NeverEntered(start, run[..|run| - 1], key); }
  }

  /** No function is owed more than the running time, or was running for longer than has passed. */
  lemma {:induction false} TimeBounds(start: Timespec, run: seq<HookCall>, key: Key)
    requires Timely(start, run)
    ensures var a := AccountOf(start, run, key);
      0 <= a.self <= a.present <= ClockAfter(start, run).Ns() - start.Ns() && a.self <= RunningTime(start, run)
    ensures RunningTime(start, run) <= ClockAfter(start, run).Ns() - start.Ns()
  {
    hide Timespec.Ns;
    if run != [] { TimeBounds(start, run[..|run| - 1], key); }
  }

  // ---- from positions to keys ----

  /** Positions on the stack are those of records, whose keys differ. */
  ghost predicate Keyed(records: seq<Record>, stack: seq<nat>) {
    && (forall k :: 0 <= k < |stack| ==> stack[k] < |records|)
    && (forall i, j :: 0 <= i < |records| && 0 <= j < |records| && i != j ==> records[i].key != records[j].key)
  }

  ghost function KeysOn(records: seq<Record>, stack: seq<nat>): (keys: seq<Key>)
    requires Keyed(records, stack)
    ensures |keys| == |stack| && forall k :: 0 <= k < |stack| ==> keys[k] == records[stack[k]].key
  {
    seq(|stack|, k requires 0 <= k < |stack| => records[stack[k]].key)
  }

  /** A record is on the stack as often as its key. */
  lemma {:induction false} KeyMultiplicity(records: seq<Record>, stack: seq<nat>, i: nat)
    requires Keyed(records, stack) && i < |records|
    ensures Multiplicity(stack, i) == multiset(KeysOn(records, stack))[records[i].key]
  {
    if stack != [] {
      var n := |stack| - 1;
      KeyMultiplicity(records, stack[..n], i);
      var keys, key := KeysOn(records, stack[..n]), records[stack[n]].key;
      assert KeysOn(records, stack) == keys + [key];
      assert multiset(keys + [key])[records[i].key] == multiset(keys)[records[i].key]
               + if key == records[i].key then 1 else 0;
    }
  }

  /** A record is on the stack, or on its top, exactly if its key is. */
  lemma PlaceByKey(records: seq<Record>, stack: seq<nat>, i: nat, ns: int)
    requires Keyed(records, stack) && i < |records|
    ensures var keys, key := KeysOn(records, stack), records[i].key;
      && IfOn(stack, i, ns) == (if key in keys then ns else 0)
      && IfTop(stack, i, ns) == (if keys != [] && keys[|keys| - 1] == key then ns else 0)
  {
    KeyMultiplicity(records, stack, i);
  }

  // ---- one event ----

  ghost predicate RecordTold(r: Record, present: int, start: Timespec, run: seq<HookCall>) {
    AccountOf(start, run, r.key) == Account(r.self.Ns(), present, r.memory, r.calls) && r.calls > 0
  }

  ghost predicate RecordsTold(records: seq<Record>, present: seq<int>, start: Timespec, run: seq<HookCall>) {
    |present| == |records| && forall i :: 0 <= i < |records| ==> RecordTold(records[i], present[i], start, run)
  }

  ghost predicate Listed(records: seq<Record>, key: Key) {
    exists i :: 0 <= i < |records| && records[i].key == key
  }

  /** Every function that was entered has a record. */
  ghost predicate AllListed(records: seq<Record>, start: Timespec, run: seq<HookCall>) {
    forall key :: AccountOf(start, run, key).calls > 0 ==> Listed(records, key)
  }

  lemma AccountStep(start: Timespec, run: seq<HookCall>, h: HookCall, key: Key)
    ensures AccountOf(start, run + [h], key)
      == Charged(AccountOf(start, run, key), Active(run), ClockAfter(start, run), MemoryAfter(run), h, key)
  {
    hide Active, Charged, ClockAfter, MemoryAfter;
    assert (run + [h])[..|run|] == run;
  }

  lemma KnownRecord(start: Timespec, run: seq<HookCall>, h: HookCall, records: seq<Record>, stack: seq<nat>, i: nat,
                    present: int, r: Record, present': int)
    requires Keyed(records, stack) && KeysOn(records, stack) == Active(run)
    requires i < |records| && RecordTold(records[i], present, start, run)
    requires RecordMoved(records[i], present, r, present', i, stack, ClockAfter(start, run), MemoryAfter(run), h)
    ensures RecordTold(r, present', start, run + [h])
  {
    hide Active, ClockAfter, MemoryAfter, Timespec.Ns, IfTop, IfOn, AccountOf, Keyed;
    var rest := Remaining(h.event, stack);
    RestKeys(records, stack, h.event);
    PlaceByKey(records, stack, i, h.entry.Ns() - ClockAfter(start, run).Ns());
    PlaceByKey(records, stack, i, Growth(MemoryAfter(run), h.memory));
    PlaceByKey(records, rest, i, h.exit.Ns() - h.entry.Ns());
    AccountStep(start, run, h, r.key);
  }

  lemma RestKeys(records: seq<Record>, stack: seq<nat>, event: HookEvent)
    requires Keyed(records, stack)
    ensures Keyed(records, Remaining(event, stack))
    ensures KeysOn(records, Remaining(event, stack)) == Remaining(event, KeysOn(records, stack))
  {
  }

  lemma FirstRecord(start: Timespec, run: seq<HookCall>, h: HookCall, r: Record, present: int)
    requires AccountOf(start, run, r.key).calls == 0 && RecordMade(r, present, h)
    ensures RecordTold(r, present, start, run + [h])
  {
    hide Timespec.Ns, ClockAfter, MemoryAfter, AccountOf, Active;
    NeverEntered(start, run, r.key);
    AccountStep(start, run, h, r.key);
  }

  /** The same event with all that was known before and after it. */
  ghost predicate Stepped(start: Timespec, run: seq<HookCall>, h: HookCall, records: seq<Record>, stack: seq<nat>,
                          present: seq<int>, records': seq<Record>, stack': seq<nat>, present': seq<int>) {
    && Keyed(records, stack) && Keyed(records', stack')
    && Moved(records, stack, present, records', stack', present', ClockAfter(start, run), MemoryAfter(run), h)
  }

  lemma RecordsStep(start: Timespec, run: seq<HookCall>, h: HookCall, records: seq<Record>, stack: seq<nat>,
                    present: seq<int>, records': seq<Record>, stack': seq<nat>, present': seq<int>)
    requires Stepped(start, run, h, records, stack, present, records', stack', present')
    requires KeysOn(records, stack) == Active(run)
    requires RecordsTold(records, present, start, run) && AllListed(records, start, run)
    ensures RecordsTold(records', present', start, run + [h])
  {
    hide RecordTold, RecordMoved, RecordMade, AccountOf, Active, ClockAfter, MemoryAfter;
    forall i | 0 <= i < |records'| ensures RecordTold(records'[i], present'[i], start, run + [h]) {
      if i < |records| {
        KnownRecord(start, run, h, records, stack, i, present[i], records'[i], present'[i]);
      } else {
        KeysKept(start, run, h, records, stack, present, records', stack', present');
        assert RecordMade(records'[i], present'[i], h);
        FirstRecord(start, run, h, records'[i], present'[i]);
      }
    }
  }

  lemma KeysKept(start: Timespec, run: seq<HookCall>, h: HookCall, records: seq<Record>, stack: seq<nat>,
                 present: seq<int>, records': seq<Record>, stack': seq<nat>, present': seq<int>)
    requires Stepped(start, run, h, records, stack, present, records', stack', present')
    ensures forall i :: 0 <= i < |records| ==> records'[i].key == records[i].key
  {
    hide IfTop, IfOn, Growth, Timespec.Ns, ClockAfter, MemoryAfter;
    forall i | 0 <= i < |records| ensures records'[i].key == records[i].key {
      assert RecordMoved(records[i], present[i], records'[i], present'[i], i, stack, ClockAfter(start, run),
                         MemoryAfter(run), h);
    }
  }

  lemma ActiveStep(start: Timespec, run: seq<HookCall>, h: HookCall, records: seq<Record>, stack: seq<nat>,
                   present: seq<int>, records': seq<Record>, stack': seq<nat>, present': seq<int>)
    requires Stepped(start, run, h, records, stack, present, records', stack', present')
    requires KeysOn(records, stack) == Active(run)
    ensures KeysOn(records', stack') == Active(run + [h])
  {
    hide RecordMoved, RecordMade, ClockAfter, MemoryAfter;
    KeysKept(start, run, h, records, stack, present, records', stack', present');
    assert (run + [h])[..|run|] == run;
    assert Remaining(h.event, Active(run)) == KeysOn(records, Remaining(h.event, stack));
  }

  lemma ListedStep(start: Timespec, run: seq<HookCall>, h: HookCall, records: seq<Record>, stack: seq<nat>,
                   present: seq<int>, records': seq<Record>, stack': seq<nat>, present': seq<int>)
    requires Stepped(start, run, h, records, stack, present, records', stack', present')
    requires AllListed(records, start, run)
    ensures AllListed(records', start, run + [h])
  {
    hide RecordMoved, RecordMade, ClockAfter, MemoryAfter, AccountOf, Active;
    KeysKept(start, run, h, records, stack, present, records', stack', present');
    forall key | AccountOf(start, run + [h], key).calls > 0 ensures Listed(records', key) {
      AccountStep(start, run, h, key);
      if AccountOf(start, run, key).calls > 0 {
        var i :| 0 <= i < |records| && records[i].key == key;
        assert records'[i].key == key;
      }
    }
  }

  // ---- runs ----

  /** The profiler has exactly what the events say. */
  ghost predicate Told(p: Profiler, start: Timespec, run: seq<HookCall>)
    reads p
  {
    && Keyed(p.records, p.stack) && KeysOn(p.records, p.stack) == Active(run)
    && p.last == ClockAfter(start, run) && p.lastMemory == MemoryAfter(run)
    && p.active == RunningTime(start, run) && p.entered == Entries(run)
    && RecordsTold(p.records, p.present, start, run) && AllListed(p.records, start, run)
  }

  lemma InvMeans(p: Profiler)
    requires p.Inv()
    ensures Keyed(p.records, p.stack) && |p.present| == |p.records|
    ensures SelfSum(p.records) == p.active && CallSum(p.records) == p.entered
  {
  }

  /** One more event. */
  method Follow(p: Profiler, start: Timespec, ghost run: seq<HookCall>, h: HookCall)
    requires p.Inv() && Told(p, start, run) && Timely(start, run + [h])
    modifies p
    ensures p.Inv() && Told(p, start, run + [h])
  {
    hide Timespec.Ns, Timespec.Sum, Timespec.Reading, Profiler.Inv, Keyed, Moved, RecordsTold, AllListed, Active;
    assert (run + [h])[..|run|] == run;
    ghost var records, stack, present := p.records, p.stack, p.present;
    p.Hook(h);
    InvMeans(p);
    RecordsStep(start, run, h, records, stack, present, p.records, p.stack, p.present);
    ActiveStep(start, run, h, records, stack, present, p.records, p.stack, p.present);
    ListedStep(start, run, h, records, stack, present, p.records, p.stack, p.present);
  }

  /** What a record shows at a time, given what its function is owed and how often it is running. */
  ghost predicate Shows(r: Record, a: Account, depth: nat, now: Timespec) {
    && r.self.Ns() == a.self && r.memory == a.memory && r.calls == a.calls && r.depth == depth
    && r.total.Ns() + Pending(r, now) == a.present && r.self.Ns() <= a.present
  }

  lemma RecordShows(p: Profiler, start: Timespec, run: seq<HookCall>, i: nat)
    requires p.Inv() && Told(p, start, run) && i < |p.records|
    ensures var r := p.records[i];
      Shows(r, AccountOf(start, run, r.key), multiset(Active(run))[r.key], ClockAfter(start, run))
  {
    hide Multiplicity, Timespec.Ns, AccountOf, Active, ClockAfter, Keyed, AllListed;
    KeyMultiplicity(p.records, p.stack, i);
    assert RecordTold(p.records[i], p.present[i], start, run);
    assert RecordOk(p.records[i], Multiplicity(p.stack, i), p.present[i], p.last);
  }

  /**
    * After any sequence of events, the clock running on, the profiler lists exactly the functions that were entered,
    * each with the times, memory and calls that the events say.
    */
  method Run(start: Timespec, run: seq<HookCall>) returns (p: Profiler)
    requires start.Reading() && Timely(start, run)
    ensures p.Inv() && KeysOn(p.records, p.stack) == Active(run)
    ensures SelfSum(p.records) == RunningTime(start, run) && CallSum(p.records) == Entries(run)
    ensures forall key :: Listed(p.records, key) <==> AccountOf(start, run, key).calls > 0
    ensures forall i :: 0 <= i < |p.records| ==> var r := p.records[i];
      Shows(r, AccountOf(start, run, r.key), multiset(Active(run))[r.key], ClockAfter(start, run))
  {
    hide Timespec.Reading, Profiler.Inv, Timely, Active, ClockAfter, RunningTime, Entries, AccountOf, Shows;
    p := RunAll(start, run);
    InvMeans(p);
    forall i | 0 <= i < |p.records| ensures var r := p.records[i];
      Shows(r, AccountOf(start, run, r.key), multiset(Active(run))[r.key], ClockAfter(start, run)) {
      RecordShows(p, start, run, i);
    }
  }

  method RunAll(start: Timespec, run: seq<HookCall>) returns (p: Profiler)
    requires start.Reading() && Timely(start, run)
    ensures p.Inv() && Told(p, start, run)
  {
    hide Timespec.Reading, Profiler.Inv, Timely;
    p := new Profiler(start);
    InvMeans(p);
    assert run[..0] == [];
    for n := 0 to |run|
      invariant p.Inv() && Told(p, start, run[..n]) && fresh(p)
    {
      assert run[..n + 1] == run[..n] + [run[n]];
      TimelyPrefix(start, run, n + 1);
      Follow(p, start, run[..n], run[n]);
    }
    assert run[..|run|] == run;
  }

  lemma {:induction false} TimelyPrefix(start: Timespec, run: seq<HookCall>, n: nat)
    requires Timely(start, run) && n <= |run|
    ensures Timely(start, run[..n])
  {
    if n < |run| {
      assert run[..n] == run[..|run| - 1][..n];
      TimelyPrefix(start, run[..|run| - 1], n);
    } else {
      assert run[..n] == run;
    }
  }
}
