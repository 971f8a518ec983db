/** The profiler: a hook-driven activation stack over shared records (src/lws_profiler.c). */
module Profiler {
  import opened Keys

  const SECOND: int := 1_000_000_000

  datatype Timespec = Timespec(sec: int, nsec: int) {
    function Ns(): int {
      sec * SECOND + nsec
    }

    /** A clock reading. */
    predicate Reading() {
      0 <= nsec < SECOND
    }

    /** An accumulated time; a full second may stay in the nanoseconds, since the carry test is strict. */
    predicate Sum() {
      0 <= nsec <= SECOND
    }
  }

  const ZERO := Timespec(0, 0)

  /** lws_add_timespec. */
  function Add(base: Timespec, inc: Timespec): (r: Timespec)
    requires base.Sum() && inc.Sum()
    ensures r.Sum() && r.Ns() == base.Ns() + inc.Ns()
  {
    var nsec, sec := base.nsec + inc.nsec, base.sec + inc.sec;
    if nsec > SECOND then Timespec(sec + 1, nsec - SECOND) else Timespec(sec, nsec)
  }

  /** lws_add_timespec_delta. */
  function AddDelta(base: Timespec, from: Timespec, to: Timespec): (r: Timespec)
    requires base.Sum() && from.Reading() && to.Reading()
    ensures r.Sum() && r.Ns() == base.Ns() + (to.Ns() - from.Ns())
  {
    var nsec, sec := base.nsec + (to.nsec - from.nsec), base.sec + (to.sec - from.sec);
    if nsec < 0 then Timespec(sec - 1, nsec + SECOND)
    else if nsec > SECOND then Timespec(sec + 1, nsec - SECOND)
    else Timespec(sec, nsec)
  }

  /** lws_add_memory_delta. */
  function AddMemory(base: nat, from: nat, to: nat): (r: nat)
    ensures r == base + Growth(from, to)
  {
    if to > from then base + (to - from) else base
  }

  /** How much memory use has grown, if it has. */
  function Growth(from: nat, to: nat): nat {
    if to > from then to - from else 0
  }

  datatype Record = Record(key: Key, depth: nat, calls: nat, selfStart: Timespec, self: Timespec,
                           totalStart: Timespec, total: Timespec, memoryStart: nat, memory: nat)

  datatype HookEvent = Call | TailCall | Return

  /** An event with the function entered, the clock on entry to the hook and on exit from it, and the memory use. */
  datatype HookCall = HookCall(event: HookEvent, key: Key, entry: Timespec, exit: Timespec, memory: nat)

  function Multiplicity(stack: seq<nat>, i: nat): nat {
    if stack == [] then 0 else Multiplicity(stack[..|stack| - 1], i) + if stack[|stack| - 1] == i then 1 else 0
  }

  lemma {:induction false} MultiplicityOutside(stack: seq<nat>, i: nat)
    requires forall k :: 0 <= k < |stack| ==> stack[k] < i
    ensures Multiplicity(stack, i) == 0
  {
    if stack != [] { MultiplicityOutside(stack[..|stack| - 1], i); }
  }

  lemma MultiplicityPush(stack: seq<nat>, top: nat, i: nat)
    ensures Multiplicity(stack + [top], i) == Multiplicity(stack, i) + if i == top then 1 else 0
  {
    assert (stack + [top])[..|stack|] == stack;
  }

  /** The position of the record with this key, or |records|. */
  function Lookup(records: seq<Record>, key: Key): (i: nat)
    ensures i <= |records| && (i < |records| ==> records[i].key == key)
    ensures i == |records| ==> forall j :: 0 <= j < |records| ==> records[j].key != key
  {
    if records == [] || records[0].key == key then 0 else 1 + Lookup(records[1..], key)
  }

  ghost function SelfSum(records: seq<Record>): int {
    if records == [] then 0 else SelfSum(records[..|records| - 1]) + records[|records| - 1].self.Ns()
  }

  ghost function CallSum(records: seq<Record>): nat {
    if records == [] then 0 else CallSum(records[..|records| - 1]) + records[|records| - 1].calls
  }

  lemma {:induction false} SumsUpdate(records: seq<Record>, i: nat, r: Record)
    requires i < |records|
    ensures SelfSum(records[i := r]) == SelfSum(records) - records[i].self.Ns() + r.self.Ns()
    ensures CallSum(records[i := r]) == CallSum(records) - records[i].calls + r.calls
  {
    var n := |records| - 1;
    if i < n {
      assert records[i := r][..n] == records[..n][i := r];
      SumsUpdate(records[..n], i, r);
    } else {
      assert records[i := r][..n] == records[..n];
    }
  }

  lemma SumsAppend(records: seq<Record>, r: Record)
    ensures SelfSum(records + [r]) == SelfSum(records) + r.self.Ns()
    ensures CallSum(records + [r]) == CallSum(records) + r.calls
  {
    assert (records + [r])[..|records|] == records;
  }

  /** How long a record has been on the stack since its depth was last zero. */
  ghost function Pending(r: Record, now: Timespec): int {
    if r.depth > 0 then now.Ns() - r.totalStart.Ns() else 0
  }

  /** One record: `present` is the time it has spent on the stack, `count` how often it is there. */
  ghost predicate RecordOk(r: Record, count: nat, present: int, now: Timespec) {
    && r.depth == count
    && r.self.Sum() && r.total.Sum() && r.selfStart.Reading() && r.totalStart.Reading()
    && r.total.Ns() + Pending(r, now) == present
    && r.self.Ns() <= present
  }

  /** The records and the stack at a time. */
  ghost function Consistent(records: seq<Record>, stack: seq<nat>, present: seq<int>, now: Timespec): (b: bool)
    ensures b ==> now.Reading() && |present| == |records| && (stack != [] ==> stack[|stack| - 1] < |records|)
  {
    && now.Reading() && |present| == |records|
    && (forall i, j :: 0 <= i < j < |records| ==> records[i].key != records[j].key)
    && (forall k :: 0 <= k < |stack| ==> stack[k] < |records|)
    && (forall i :: 0 <= i < |records| ==> RecordOk(records[i], Multiplicity(stack, i), present[i], now))
  }

  /** The same records, but one charged for time and memory and one called; none if the position is too large. */
  ghost predicate Charged(before: seq<Record>, after: seq<Record>, top: nat, ns: int, grown: nat, called: nat) {
    && |after| == |before|
    && forall i :: 0 <= i < |before| ==>
         && after[i].key == before[i].key
         && after[i].self.Ns() == before[i].self.Ns() + (if i == top then ns else 0)
         && after[i].memory == before[i].memory + (if i == top then grown else 0)
         && after[i].calls == before[i].calls + (if i == called then 1 else 0)
  }

  /** The position of the top of the stack, or none. */
  function Top(stack: seq<nat>, none: nat): nat {
    if stack == [] then none else stack[|stack| - 1]
  }

  lemma DepthIsMultiplicity(records: seq<Record>, stack: seq<nat>, present: seq<int>, now: Timespec)
    requires Consistent(records, stack, present, now)
    ensures forall i :: 0 <= i < |records| ==> records[i].depth == Multiplicity(stack, i)
  {
    forall i | 0 <= i < |records| ensures records[i].depth == Multiplicity(stack, i) {
      assert RecordOk(records[i], Multiplicity(stack, i), present[i], now);
    }
  }

  /** Time passes: every record on the stack has been there that much longer. */
  ghost function Later(records: seq<Record>, present: seq<int>, ns: int): (r: seq<int>)
    requires |present| == |records|
    ensures |r| == |records|
    ensures forall i :: 0 <= i < |r| ==> r[i] == present[i] + if records[i].depth > 0 then ns else 0
  {
    seq(|records|, i requires 0 <= i < |records| => present[i] + if records[i].depth > 0 then ns else 0)
  }

  lemma TimePasses(records: seq<Record>, stack: seq<nat>, present: seq<int>, now: Timespec, t: Timespec)
    requires Consistent(records, stack, present, now) && t.Reading() && now.Ns() <= t.Ns()
    ensures Consistent(records, stack, Later(records, present, t.Ns() - now.Ns()), t)
  {
    hide Multiplicity, Timespec.Ns, Timespec.Sum, Timespec.Reading;
    var present' := Later(records, present, t.Ns() - now.Ns());
    forall i | 0 <= i < |records| ensures RecordOk(records[i], Multiplicity(stack, i), present'[i], t) {
      assert RecordOk(records[i], Multiplicity(stack, i), present[i], now);
    }
  }

  /** Replacing one record by one that fits as well. */
  lemma Replace(records: seq<Record>, stack: seq<nat>, present: seq<int>, now: Timespec, i: nat, r: Record)
    requires Consistent(records, stack, present, now) && i < |records| && r.key == records[i].key
    requires RecordOk(r, Multiplicity(stack, i), present[i], now)
    ensures Consistent(records[i := r], stack, present, now)
  {
    hide Multiplicity, RecordOk;
  }

  function ChargedFor(r: Record, t: Timespec, memory: nat): Record
    requires r.self.Sum() && r.selfStart.Reading() && t.Reading()
  {
    r.(self := AddDelta(r.self, r.selfStart, t), memory := AddMemory(r.memory, r.memoryStart, memory))
  }

  /** The function on top of the stack has been running since the last hook. */
  lemma ChargeTop(records: seq<Record>, stack: seq<nat>, present: seq<int>, now: Timespec, t: Timespec, memory: nat)
    requires Consistent(records, stack, present, now) && stack != [] && t.Reading() && now.Ns() <= t.Ns()
    requires records[stack[|stack| - 1]].selfStart == now
    ensures var top := stack[|stack| - 1]; var r := records[top];
            r.self.Sum() && r.selfStart.Reading() &&
            Consistent(records[top := ChargedFor(r, t, memory)], stack, Later(records, present, t.Ns() - now.Ns()), t)
  {
    hide Timespec.Ns, Timespec.Sum, Timespec.Reading, Multiplicity, Consistent;
    var top, present' := stack[|stack| - 1], Later(records, present, t.Ns() - now.Ns());
    TimePasses(records, stack, present, now, t);
    OneRecord(records, stack, present, now, top);
    OneRecord(records, stack, present', t, top);
    MultiplicityTop(stack);
    var r := records[top];
    Replace(records, stack, present', t, top, ChargedFor(r, t, memory));
  }

  lemma OneRecord(records: seq<Record>, stack: seq<nat>, present: seq<int>, now: Timespec, i: nat)
    requires Consistent(records, stack, present, now) && i < |records|
    ensures RecordOk(records[i], Multiplicity(stack, i), present[i], now)
  {
  }

  lemma OnlyRecord(records: seq<Record>, stack: seq<nat>, present: seq<int>, now: Timespec, i: nat)
    requires Consistent(records, stack, present, now) && i < |records|
    ensures forall j :: 0 <= j < |records| && j != i ==> records[j].key != records[i].key
  {
  }

  lemma Restart(records: seq<Record>, stack: seq<nat>, present: seq<int>, now: Timespec, i: nat, memory: nat)
    requires Consistent(records, stack, present, now) && i < |records|
    ensures Consistent(records[i := records[i].(selfStart := now, memoryStart := memory)], stack, present, now)
  {
    assert RecordOk(records[i], Multiplicity(stack, i), present[i], now);
    Replace(records, stack, present, now, i, records[i].(selfStart := now, memoryStart := memory));
  }

  /** The function on top of the stack returns or makes a tail call. */
  lemma Pop(records: seq<Record>, stack: seq<nat>, present: seq<int>, now: Timespec)
    requires Consistent(records, stack, present, now) && stack != []
    ensures var top := stack[|stack| - 1];
            records[top].depth > 0 && records[top].total.Sum() && records[top].totalStart.Reading() &&
            Consistent(records[top := Left(records[top], now)], stack[..|stack| - 1], present, now)
  {
    hide Timespec.Ns, Timespec.Sum, Timespec.Reading;
    var top, rest := stack[|stack| - 1], stack[..|stack| - 1];
    var records' := records[top := Left(records[top], now)];
    forall i | 0 <= i < |records| ensures RecordOk(records'[i], Multiplicity(rest, i), present[i], now) {
      assert RecordOk(records[i], Multiplicity(stack, i), present[i], now);
    }
  }

  function Left(r: Record, now: Timespec): Record
    requires r.depth > 0 && r.total.Sum() && r.totalStart.Reading() && now.Reading()
  {
    if r.depth == 1 then r.(depth := 0, total := AddDelta(r.total, r.totalStart, now)) else r.(depth := r.depth - 1)
  }

  /** A function is called. */
  lemma Push(records: seq<Record>, stack: seq<nat>, present: seq<int>, now: Timespec, i: nat, memory: nat)
    requires Consistent(records, stack, present, now) && i < |records|
    ensures Consistent(records[i := Entered(records[i], now, memory)], stack + [i], present, now)
  {
    hide Timespec.Ns, Timespec.Sum, Timespec.Reading;
    var records' := records[i := Entered(records[i], now, memory)];
    forall j | 0 <= j < |records| ensures RecordOk(records'[j], Multiplicity(stack + [i], j), present[j], now) {
      MultiplicityPush(stack, i, j);
      assert RecordOk(records[j], Multiplicity(stack, j), present[j], now);
    }
  }

  function Entered(r: Record, now: Timespec, memory: nat): Record {
    r.(selfStart := now, memoryStart := memory, totalStart := if r.depth == 0 then now else r.totalStart,
       depth := r.depth + 1, calls := r.calls + 1)
  }

  /** A function is called for the first time. */
  lemma Append(records: seq<Record>, stack: seq<nat>, present: seq<int>, now: Timespec, key: Key)
    requires Consistent(records, stack, present, now) && Lookup(records, key) == |records|
    ensures Consistent(records + [NewRecord(key)], stack, present + [0], now)
  {
    hide Lookup;
    MultiplicityOutside(stack, |records|);
    var records', present' := records + [NewRecord(key)], present + [0];
    forall i | 0 <= i < |records'| ensures RecordOk(records'[i], Multiplicity(stack, i), present'[i], now) {
      if i < |records| { assert RecordOk(records[i], Multiplicity(stack, i), present[i], now); }
    }
  }

  function NewRecord(key: Key): Record {
    Record(key, 0, 0, ZERO, ZERO, ZERO, ZERO, 0, 0)
  }

  /** What an event leaves of a stack before anything is pushed. */
  ghost function Remaining<T>(event: HookEvent, stack: seq<T>): seq<T> {
    if event.Call? || stack == [] then stack else stack[..|stack| - 1]
  }

  /**
    * What an event does to a record: if on top of the stack, it is charged for time and growth in memory since the last
    * event; if it is the one entered, it has one call more; and its presence on the stack is counted.
    */
  ghost predicate RecordMoved(r: Record, present: int, r': Record, present': int, i: nat, stack: seq<nat>,
                              from: Timespec, memory: nat, h: HookCall) {
    && r'.key == r.key
    && r'.self.Ns() == r.self.Ns() + IfTop(stack, i, h.entry.Ns() - from.Ns())
    && r'.memory == r.memory + IfTop(stack, i, Growth(memory, h.memory))
    && r'.calls == r.calls + (if !h.event.Return? && r.key == h.key then 1 else 0)
    && present' == present + IfOn(stack, i, h.entry.Ns() - from.Ns())
                     + IfOn(Remaining(h.event, stack), i, h.exit.Ns() - h.entry.Ns())
  }

  /** A record made by an event is charged for nothing yet. */
  ghost predicate RecordMade(r: Record, present: int, h: HookCall) {
    !h.event.Return? && r.key == h.key && r.calls == 1 && r.self.Ns() == r.memory == present == 0
  }

  /** What an event does to all the records, and which function runs after it. */
  ghost predicate Moved(records: seq<Record>, stack: seq<nat>, present: seq<int>, records': seq<Record>,
                        stack': seq<nat>, present': seq<int>, from: Timespec, memory: nat, h: HookCall) {
    && |records| == |present| && |records'| == |present'| && |records| <= |records'|
    && (if h.event.Return? then stack' == Remaining(h.event, stack)
        else exists top :: 0 <= top < |records'| && records'[top].key == h.key
                           && stack' == Remaining(h.event, stack) + [top])
    && (forall i :: 0 <= i < |records| ==>
          RecordMoved(records[i], present[i], records'[i], present'[i], i, stack, from, memory, h))
    && (forall i :: |records| <= i < |records'| ==> RecordMade(records'[i], present'[i], h))
  }

  class Profiler {
    var records: seq<Record>   // one per function key, in order of first call; the stack refers to them by position
    var stack: seq<nat>
    ghost var last: Timespec        // the clock at the end of the last hook
    ghost var active: int           // nanoseconds between hooks while the stack was not empty
    ghost var entered: nat          // call and tail-call events so far
    ghost var lastMemory: nat       // memory use at the last hook
    ghost var present: seq<int>     // for each record the nanoseconds it has spent on the stack

    ghost predicate Core()
      reads this
    {
      Consistent(records, stack, present, last) && SelfSum(records) == active && CallSum(records) == entered
    }

    /** Between hooks the function on top of the stack is running since the last hook. */
    ghost predicate Inv()
      reads this
    {
      && Core()
      && (stack != [] ==> var r := records[stack[|stack| - 1]]; r.selfStart == last && r.memoryStart == lastMemory)
    }

    /** Time law: self times sum up to the running time, and off the stack self time is at most total time. */
    lemma TimeLaw(i: nat)
      requires Inv() && i < |records|
      ensures records[i].depth == Multiplicity(stack, i) && SelfSum(records) == active
      ensures records[i].depth == 0 ==> records[i].self.Ns() <= records[i].total.Ns() == present[i]
    {
      assert RecordOk(records[i], Multiplicity(stack, i), present[i], last);
    }

    constructor (now: Timespec)
      requires now.Reading()
      ensures Inv() && records == [] && stack == [] && active == entered == lastMemory == 0 && last == now
    {
      records, stack, last, active, entered, lastMemory, present := [], [], now, 0, 0, 0, [];
    }

    /** Charge the function on top of the stack for the time since the last hook. */
    method Charge(t: Timespec, memory: nat)
      requires Inv() && t.Reading() && last.Ns() <= t.Ns()
      modifies this`records, this`last, this`present, this`active
      ensures Core() && last == t
      ensures active == old(active) + if stack != [] then t.Ns() - old(last).Ns() else 0
      ensures present == Later(old(records), old(present), t.Ns() - old(last).Ns())
      ensures Charged(old(records), records, Top(stack, |records|), t.Ns() - old(last).Ns(),
                      Growth(lastMemory, memory), |records|)
    {
      hide Timespec.Ns, Timespec.Sum, Timespec.Reading, Multiplicity, RecordOk, Consistent, Later;
      ghost var ns := t.Ns() - last.Ns();
      TimePasses(records, stack, present, last, t);
      if stack != [] {
        var top := stack[|stack| - 1];
        ChargeTop(records, stack, present, last, t, memory);
        var r := records[top];
        var self := AddDelta(r.self, r.selfStart, t);
        var charged := r.(self := self, memory := AddMemory(r.memory, r.memoryStart, memory));
        SumsUpdate(records, top, charged);
        records := records[top := charged];
        active := active + ns;
      }
      present := Later(old(records), present, ns);
      last := t;
    }

    /** Leave the function on top of the stack. */
    method Leave(t: Timespec)
      requires Core() && stack != [] && t == last
      modifies this`records, this`stack
      ensures Core() && stack == old(stack)[..|old(stack)| - 1]
      ensures Charged(old(records), records, |records|, 0, 0, |records|)
    {
      hide Timespec.Ns, Timespec.Sum, Timespec.Reading, Multiplicity, RecordOk, Consistent, Lookup, Later;
      Pop(records, stack, present, last);
      var top := stack[|stack| - 1];
      var r := records[top].(depth := records[top].depth - 1);
      if r.depth == 0 {
        r := r.(total := AddDelta(r.total, r.totalStart, t));
      }
      SumsUpdate(records, top, r);
      records := records[top := r];
      stack := stack[..|stack| - 1];
    }

    /** The position of the record of a key, which is made if there is none. */
    method GetOrCreate(key: Key) returns (i: nat)
      requires Core()
      modifies this`records, this`present
      ensures Core() && i < |records| && records[i].key == key
      ensures forall j :: |old(records)| <= j < |records| ==> j == i && records[j] == NewRecord(key)
      ensures old(records) <= records && old(present) <= present
      ensures |records| == |old(records)| + if Lookup(old(records), key) < |old(records)| then 0 else 1
      ensures |present| == |records| && forall j :: |old(records)| <= j < |records| ==> present[j] == 0
    {
      hide Timespec.Ns, Timespec.Sum, Timespec.Reading, Multiplicity, RecordOk, Consistent, Lookup, Later;
      i := Lookup(records, key);
      if i == |records| {
        Append(records, stack, present, last, key);
        SumsAppend(records, NewRecord(key));
        records := records + [NewRecord(key)];
        present := present + [0];
        assert NewRecord(key).self.Ns() == 0 by { ZeroNs(); }
      }
    }

    /** Push a record; the stack grows as needed. */
    method Enter(i: nat, t: Timespec, memory: nat)
      requires Core() && i < |records| && t.Reading() && last.Ns() <= t.Ns()
      modifies this`records, this`stack, this`last, this`lastMemory, this`present, this`entered
      ensures Inv() && last == t && lastMemory == memory && stack == old(stack) + [i] && entered == old(entered) + 1
      ensures present == Later(old(records), old(present), t.Ns() - old(last).Ns())
      ensures Charged(old(records), records, |records|, 0, 0, i)
    {
      hide Timespec.Ns, Timespec.Sum, Timespec.Reading, Multiplicity, RecordOk, Consistent, Lookup, Later;
      TimePasses(records, stack, present, last, t);
      present := Later(records, present, t.Ns() - last.Ns());
      last := t;
      lastMemory := memory;
      Push(records, stack, present, t, i, memory);
      stack := stack + [i];
      var r := records[i].(selfStart := t, memoryStart := memory);
      if r.depth == 0 {
        r := r.(totalStart := t);
      }
      r := r.(depth := r.depth + 1, calls := r.calls + 1);
      SumsUpdate(records, i, r);
      records := records[i := r];
      entered := entered + 1;
    }

    /** After a return the caller, if it is profiled, goes on. */
    method Resume(t: Timespec, memory: nat)
      requires Core() && t.Reading() && last.Ns() <= t.Ns()
      modifies this`records, this`last, this`lastMemory, this`present
      ensures Inv() && last == t && lastMemory == memory
      ensures present == Later(old(records), old(present), t.Ns() - old(last).Ns())
      ensures Charged(old(records), records, |records|, 0, 0, |records|)
    {
      hide Timespec.Ns, Timespec.Sum, Timespec.Reading, Multiplicity, RecordOk, Consistent, Lookup, Later;
      TimePasses(records, stack, present, last, t);
      present := Later(records, present, t.Ns() - last.Ns());
      last := t;
      lastMemory := memory;
      if stack != [] {
        var top := stack[|stack| - 1];
        Restart(records, stack, present, t, top, memory);
        var r := records[top].(selfStart := t, memoryStart := memory);
        SumsUpdate(records, top, r);
        records := records[top := r];
      }
    }

    /** The hook: the clock is read on entry and again before the entered or resumed function goes on. */
    method Hook(h: HookCall)
      requires Inv() && h.entry.Reading() && h.exit.Reading() && last.Ns() <= h.entry.Ns() <= h.exit.Ns()
      modifies this
      ensures Inv() && last == h.exit && lastMemory == h.memory
      ensures active == old(active) + if old(stack) != [] then h.entry.Ns() - old(last).Ns() else 0
      ensures entered == old(entered) + if h.event.Return? then 0 else 1
      ensures Moved(old(records), old(stack), old(present), records, stack, present, old(last), old(lastMemory), h)
    {
      hide Timespec.Ns, Timespec.Sum, Timespec.Reading, Multiplicity, RecordOk, Consistent, Lookup, Later;
      ProcessExit(h.event, h.entry, h.memory);
      ProcessEntry(h.event, h.key, h.exit, h.memory);
    }

    /** The first half of the hook. */
    method ProcessExit(event: HookEvent, entry: Timespec, memory: nat)
      requires Inv() && entry.Reading() && last.Ns() <= entry.Ns()
      modifies this`records, this`stack, this`last, this`present, this`active
      ensures Core() && last == entry && stack == Remaining(event, old(stack))
      ensures active == old(active) + if old(stack) != [] then entry.Ns() - old(last).Ns() else 0
      ensures |present| == |old(present)| == |records|
      ensures Charged(old(records), records, Top(old(stack), |records|), entry.Ns() - old(last).Ns(),
                      Growth(lastMemory, memory), |records|)
      ensures forall i :: 0 <= i < |present| ==>
        present[i] == old(present)[i] + IfOn(old(stack), i, entry.Ns() - old(last).Ns())
    {
      hide Timespec.Ns, Timespec.Sum, Timespec.Reading, Multiplicity, RecordOk, Consistent, Lookup, Later;
      DepthIsMultiplicity(records, stack, present, last);
      Charge(entry, memory);
      if stack != [] && (event.TailCall? || event.Return?) {
        Leave(entry);
      }
    }

    /** The second half of the hook. */
    method ProcessEntry(event: HookEvent, key: Key, exit: Timespec, memory: nat)
      requires Core() && exit.Reading() && last.Ns() <= exit.Ns()
      modifies this`records, this`stack, this`last, this`lastMemory, this`present, this`entered
      ensures Inv() && last == exit && lastMemory == memory
      ensures if event.Return? then stack == old(stack) && entered == old(entered)
              else exists top :: 0 <= top < |records| && records[top].key == key
                                 && stack == old(stack) + [top] && entered == old(entered) + 1
      ensures |old(records)| <= |records| == |present| && |old(present)| == |old(records)|
      ensures forall i :: 0 <= i < |old(records)| ==>
        && records[i].key == old(records)[i].key
        && records[i].self.Ns() == old(records)[i].self.Ns() && records[i].memory == old(records)[i].memory
        && records[i].calls == old(records)[i].calls + (if !event.Return? && old(records)[i].key == key then 1 else 0)
      ensures forall i :: |old(records)| <= i < |records| ==>
        && !event.Return? && records[i].key == key && records[i].calls == 1
        && records[i].self.Ns() == records[i].memory == present[i] == 0
      ensures forall i :: 0 <= i < |old(records)| ==>
        present[i] == old(present)[i] + IfOn(old(stack), i, exit.Ns() - old(last).Ns())
    {
      hide Timespec.Ns, Timespec.Sum, Timespec.Reading, Multiplicity, RecordOk, Consistent, Lookup, Later;
      ZeroNs();
      DepthIsMultiplicity(records, stack, present, last);
      if event.Call? || event.TailCall? {
        var i := GetOrCreate(key);
        OnlyRecord(records, stack, present, last, i);
        Enter(i, exit, memory);
      } else {
        Resume(exit, memory);
      }
    }
  }

  /** The time, if the record is on top of the stack. */
  ghost function IfTop(stack: seq<nat>, i: nat, ns: int): int {
    if stack != [] && stack[|stack| - 1] == i then ns else 0
  }

  /** The time, if the record is anywhere on the stack. */
  ghost function IfOn(stack: seq<nat>, i: nat, ns: int): int {
    if Multiplicity(stack, i) > 0 then ns else 0
  }

  lemma ZeroNs()
    ensures ZERO.Ns() == 0 && Timespec(1, 0).Ns() == 1_000_000_000
  {
  }

  lemma MultiplicityTop(stack: seq<nat>)
    requires stack != []
    ensures Multiplicity(stack, stack[|stack| - 1]) > 0
  {
  }
}
