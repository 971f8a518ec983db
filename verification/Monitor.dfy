/** Merging a finished profile into the shared monitor (lws_stop_profiler in src/lws_profiler.c). */
module Monitor {
  import opened Keys
  import opened Profiler
  import opened Sequences

  datatype Function = Function(key: Key, calls: nat, self: Timespec, total: Timespec, memory: nat)

  ghost predicate Accumulated(f: Function) {
    f.self.Sum() && f.total.Sum()
  }

  ghost predicate DistinctFunctions(functions: seq<Function>) {
    forall i, j :: 0 <= i < j < |functions| ==> functions[i].key != functions[j].key
  }

  ghost predicate Profile(records: seq<Record>) {
    && (forall i, j :: 0 <= i < j < |records| ==> records[i].key != records[j].key)
    && (forall i :: 0 <= i < |records| ==> records[i].self.Sum() && records[i].total.Sum())
  }

  /** `after` is `before` with a profile record added, exactly, in every component. */
  ghost predicate Adds(before: Function, r: Record, after: Function) {
    && after.key == before.key && after.calls == before.calls + r.calls && after.memory == before.memory + r.memory
    && after.self.Ns() == before.self.Ns() + r.self.Ns() && after.total.Ns() == before.total.Ns() + r.total.Ns()
  }

  /** What the merge owes to an entry the monitor already has. */
  ghost predicate Merged(records: seq<Record>, before: Function, after: Function) {
    && Accumulated(after)
    && var k := Lookup(records, before.key);
       if k < |records| then Adds(before, records[k], after) else after == before
  }

  function Copy(r: Record): Function {
    Function(r.key, r.calls, r.self, r.total, r.memory)
  }

  /** The monitor has the record as it is, with no figure in the place of another. */
  ghost predicate Taken(f: Function, r: Record) {
    && f.key == r.key && f.calls == r.calls && f.memory == r.memory
    && f.self.Ns() == r.self.Ns() && f.total.Ns() == r.total.Ns()
  }

  /** An allocation that is doubled until it has this size. */
  ghost function Doubled(alloc: nat, size: nat): (d: nat)
    requires alloc > 0
    ensures d >= size && d >= alloc
    decreases size - alloc
  {
    if alloc >= size then alloc else Doubled(2 * alloc, size)
  }

  lemma {:induction false} DoubledStep(alloc: nat, size: nat)
    requires alloc > 0
    ensures Doubled(alloc, size + 1) == if Doubled(alloc, size) == size then 2 * size else Doubled(alloc, size)
    decreases size - alloc
  {
    if alloc < size { DoubledStep(2 * alloc, size); }
  }

  /** There is memory for one more function and its key, if the array, doubled so far, is full or not. */
  ghost predicate Affordable(alloc: nat, size: nat, n: nat, grow: nat -> bool, copyKey: nat -> bool)
    requires alloc > 0
  {
    (Doubled(alloc, size + n) == size + n ==> grow(n)) && copyKey(n)
  }

  ghost predicate Known(functions: seq<Function>, key: Key) {
    exists i :: 0 <= i < |functions| && functions[i].key == key
  }

  /** The records of the profile whose keys are not among the functions, in order. */
  ghost function Unknown(functions: seq<Function>, records: seq<Record>): seq<Record> {
    if records == [] then []
    else (if Known(functions, records[0].key) then [] else [records[0]]) + Unknown(functions, records[1..])
  }

  class Monitor {
    var functions: seq<Function>
    var functionsAlloc: nat
    var outOfMemory: bool

    ghost predicate Valid()
      reads this
    {
      && |functions| <= functionsAlloc && functionsAlloc > 0 && DistinctFunctions(functions)
      && forall i :: 0 <= i < |functions| ==> Accumulated(functions[i])
    }

    /** Add the profile to the entries of the same keys, then append the rest while the shared memory lasts. */
    method Merge(records: seq<Record>, grow: nat -> bool, copyKey: nat -> bool)
      requires Valid() && Profile(records)
      modifies this
      ensures Valid() && |old(functions)| <= |functions|
      ensures forall i :: 0 <= i < |old(functions)| ==> Merged(records, old(functions)[i], functions[i])
      ensures var unknown := Unknown(old(functions), records); var added := functions[|old(functions)|..];
              |added| <= |unknown| && forall j :: 0 <= j < |added| ==> Taken(added[j], unknown[j])
      // a function is lost only if the monitor says so
      ensures old(outOfMemory) ==> outOfMemory && |functions| == |old(functions)|
      ensures !outOfMemory ==> |functions| == |old(functions)| + |Unknown(old(functions), records)|
      // and the monitor says so exactly if memory runs out: at the first function that cannot be afforded
      ensures !old(outOfMemory) ==>
        var alloc, size := old(functionsAlloc), |old(functions)|;
        var n := |functions| - size;
        && (forall j :: 0 <= j < n ==> Affordable(alloc, size, j, grow, copyKey))
        && (outOfMemory ==>
              n < |Unknown(old(functions), records)| && !Affordable(alloc, size, n, grow, copyKey))
    {
      hide Timespec.Ns, Timespec.Sum, Unknown, Known, Merged;
      ghost var before := functions;
      var rest := UpdateExisting(records);
      UnknownRecords(before, records);
      if !outOfMemory {
        KnownKeys(before, functions, rest);
        AddNew(rest, grow, copyKey);
      }
    }

    /** Add to the entries the monitor has; what remains of the profile is new to it. */
    method UpdateExisting(records: seq<Record>) returns (rest: seq<Record>)
      requires Valid() && Profile(records)
      modifies this`functions
      ensures Valid() && |functions| == |old(functions)| && rest == Unknown(old(functions), records)
      ensures forall i :: 0 <= i < |functions| ==>
        functions[i].key == old(functions)[i].key && Merged(records, old(functions)[i], functions[i])
    {
      hide Timespec.Ns, Timespec.Sum, Unknown, Known, Profile, Merged, Accumulated;
      rest := records;
      var i := 0;
      ghost var before := functions;
      UnknownNone(records);
      while i < |functions|
        invariant 0 <= i <= |functions| == |before| && Valid()
        invariant forall j :: 0 <= j < i ==>
          functions[j].key == before[j].key && Merged(records, before[j], functions[j])
        invariant forall j :: i <= j < |functions| ==> functions[j] == before[j]
        invariant rest == Unknown(before[..i], records)
      {
        assert before[..i + 1] == before[..i] + [functions[i]];
        UnknownStep(before[..i], functions[i], records);
        StrikeIsDrop(rest, functions[i].key);
        SameRecord(before, i, records);
        UnknownRecords(before[..i], records);
        var f;
        f, rest := MergeOne(functions[i], rest, records);
        ghost var was := functions;
        functions := functions[i := f];
        UpdateKeepsDistinct(was, i, f);
        i := i + 1;
      }
      assert before[..i] == before;
    }

    /** Add the record of a function's key, if there is one, and take it off the profile. */
    method MergeOne(f: Function, rest: seq<Record>, ghost records: seq<Record>)
      returns (f': Function, rest': seq<Record>)
      requires Accumulated(f) && Profile(rest)
      requires var k, all := Lookup(rest, f.key), Lookup(records, f.key);
               (k < |rest| <==> all < |records|) && (k < |rest| ==> rest[k] == records[all])
      ensures f'.key == f.key && Accumulated(f') && Merged(records, f, f')
      ensures rest' == var k := Lookup(rest, f.key); if k < |rest| then Without(rest, k) else rest
    {
      hide Timespec.Ns, Timespec.Sum, Lookup;
      f', rest' := f, rest;
      var k := Lookup(rest, f.key);
      if k < |rest| {
        var r := rest[k];
        f' := Function(f.key, f.calls + r.calls, Add(f.self, r.self), Add(f.total, r.total), f.memory + r.memory);
        rest' := Without(rest, k);
      }
    }

    /** Append new functions, growing the array by doubling, until the shared memory runs out. */
    method AddNew(rest: seq<Record>, grow: nat -> bool, copyKey: nat -> bool)
      requires Valid() && !outOfMemory && Profile(rest)
      requires forall i, j :: 0 <= i < |functions| && 0 <= j < |rest| ==> functions[i].key != rest[j].key
      modifies this
      ensures Valid() && |old(functions)| <= |functions| <= |old(functions)| + |rest|
      ensures functions[..|old(functions)|] == old(functions)
      ensures forall j :: |old(functions)| <= j < |functions| ==> Taken(functions[j], rest[j - |old(functions)|])
      ensures var alloc, size := old(functionsAlloc), |old(functions)|;
        var n := |functions| - size;
        && (forall j :: 0 <= j < n ==> Affordable(alloc, size, j, grow, copyKey))
        && if outOfMemory then n < |rest| && !Affordable(alloc, size, n, grow, copyKey) else n == |rest|
    {
      hide Timespec.Sum, Timespec.Ns, Doubled, Affordable;
      ghost var alloc, size := functionsAlloc, |functions|;
      assert Doubled(alloc, size) == alloc by { NoDoubling(alloc, size); }
      var n := 0;
      while n < |rest|
        invariant 0 <= n <= |rest| && Valid() && !outOfMemory && |functions| == size + n
        invariant functions[..size] == old(functions)
        invariant forall j :: size <= j < |functions| ==> Taken(functions[j], rest[j - size])
        invariant functionsAlloc == Doubled(alloc, size + n)
        invariant forall j :: 0 <= j < n ==> Affordable(alloc, size, j, grow, copyKey)
      {
        var ok := AddOne(rest[n], n, grow, copyKey, alloc, size);
        if !ok {
          break;
        }
        n := n + 1;
      }
    }

    /** Append one function, if it can be afforded. */
    method AddOne(r: Record, n: nat, grow: nat -> bool, copyKey: nat -> bool, ghost alloc: nat, ghost size: nat)
      returns (ok: bool)
      requires Valid() && !outOfMemory && r.self.Sum() && r.total.Sum()
      requires forall i :: 0 <= i < |functions| ==> functions[i].key != r.key
      requires |functions| == size + n && alloc > 0 && functionsAlloc == Doubled(alloc, size + n)
      modifies this
      ensures Valid() && outOfMemory == !ok && ok == Affordable(alloc, size, n, grow, copyKey)
      ensures if ok then |functions| == |old(functions)| + 1 && functions[..|old(functions)|] == old(functions)
                         && Taken(functions[|old(functions)|], r) && functionsAlloc == Doubled(alloc, size + n + 1)
              else functions == old(functions)
    {
      hide Timespec.Sum, Timespec.Ns, Doubled;
      DoubledStep(alloc, size + n);
      if |functions| == functionsAlloc {
        if !grow(n) {
          outOfMemory := true;
          return false;
        }
        functionsAlloc := functionsAlloc * 2;
      }
      if !copyKey(n) {
        outOfMemory := true;
        return false;
      }
      functions := functions + [Copy(r)];
      return true;
    }
  }

  lemma NoDoubling(alloc: nat, size: nat)
    requires alloc > 0 && size <= alloc
    ensures Doubled(alloc, size) == alloc
  {
  }

  lemma KnownKeys(before: seq<Function>, functions: seq<Function>, rest: seq<Record>)
    requires |functions| == |before| && forall i :: 0 <= i < |functions| ==> functions[i].key == before[i].key
    requires forall j :: 0 <= j < |rest| ==> !Known(before, rest[j].key)
    ensures forall i, j :: 0 <= i < |functions| && 0 <= j < |rest| ==> functions[i].key != rest[j].key
  {
  }

  lemma UnknownNone(records: seq<Record>)
    ensures Unknown([], records) == records
  {
    if records != [] { UnknownNone(records[1..]); }
  }

  lemma UpdateKeepsDistinct(functions: seq<Function>, i: nat, f: Function)
    requires DistinctFunctions(functions) && i < |functions| && f.key == functions[i].key
    ensures DistinctFunctions(functions[i := f])
  {
  }

  /** The records without the one of this key. */
  ghost function Strike(records: seq<Record>, key: Key): seq<Record> {
    if records == [] then []
    else if records[0].key == key then records[1..]
    else [records[0]] + Strike(records[1..], key)
  }

  lemma {:induction false} StrikeIsDrop(records: seq<Record>, key: Key)
    ensures var k := Lookup(records, key);
            Strike(records, key) == if k < |records| then Without(records, k) else records
  {
    hide Without;
    if records != [] {
      if records[0].key == key {
        WithoutFirst(records);
      } else {
        StrikeIsDrop(records[1..], key);
        var k := Lookup(records[1..], key);
        if k < |records[1..]| { WithoutLater(records, k); }
      }
    }
  }

  lemma {:induction false} StrikeAbsent(records: seq<Record>, key: Key)
    requires forall i :: 0 <= i < |records| ==> records[i].key != key
    ensures Strike(records, key) == records
  {
    if records != [] { StrikeAbsent(records[1..], key); }
  }

  /** The records left over are records of the profile, with keys the functions do not have. */
  lemma {:induction false} UnknownRecords(functions: seq<Function>, records: seq<Record>)
    requires Profile(records)
    ensures Profile(Unknown(functions, records))
    ensures forall j :: 0 <= j < |Unknown(functions, records)| ==>
      Unknown(functions, records)[j] in records && !Known(functions, Unknown(functions, records)[j].key)
  {
    hide Known, Timespec.Sum;
    if records != [] {
      var rest := Unknown(functions, records[1..]);
      UnknownRecords(functions, records[1..]);
      assert forall j :: 0 <= j < |rest| ==> rest[j].key != records[0].key;
    }
  }

  /** What is left over are exactly the records whose keys the functions do not have. */
  lemma {:induction false} UnknownExactly(functions: seq<Function>, records: seq<Record>, r: Record)
    ensures r in Unknown(functions, records) <==> r in records && !Known(functions, r.key)
  {
    hide Known;
    if records != [] {
      UnknownExactly(functions, records[1..], r);
      assert records == [records[0]] + records[1..];
    }
  }

  /** One more function of the monitor strikes out at most the one record of its key. */
  lemma {:induction false} UnknownStep(functions: seq<Function>, f: Function, records: seq<Record>)
    requires Profile(records)
    ensures Unknown(functions + [f], records) == Strike(Unknown(functions, records), f.key)
  {
    hide Known, Timespec.Sum;
    if records != [] {
      var r, rest := records[0], Unknown(functions, records[1..]);
      UnknownStep(functions, f, records[1..]);
      UnknownRecords(functions, records[1..]);
      KnownStep(functions, f, r.key);
      if Known(functions, r.key) {
        assert Unknown(functions, records) == rest;
        assert Unknown(functions + [f], records) == Unknown(functions + [f], records[1..]);
      } else {
        StepUnknown(functions, f, records);
      }
    }
  }

  lemma StepUnknown(functions: seq<Function>, f: Function, records: seq<Record>)
    requires Profile(records) && records != [] && !Known(functions, records[0].key)
    requires Known(functions + [f], records[0].key) <==> f.key == records[0].key
    requires var rest := Unknown(functions, records[1..]);
             Unknown(functions + [f], records[1..]) == Strike(rest, f.key)
             && forall j :: 0 <= j < |rest| ==> rest[j] in records[1..]
    ensures Unknown(functions + [f], records) == Strike(Unknown(functions, records), f.key)
  {
    hide Known, Timespec.Sum;
    var r, rest := records[0], Unknown(functions, records[1..]);
    var u := Unknown(functions, records);
    assert u == [r] + rest && u[1..] == rest;
    if r.key == f.key {
      StrikeAbsent(rest, f.key);
    }
  }

  lemma KnownStep(functions: seq<Function>, f: Function, key: Key)
    ensures Known(functions + [f], key) <==> Known(functions, key) || f.key == key
  {
    var all := functions + [f];
    assert all[|functions|] == f;
    if i :| 0 <= i < |functions| && functions[i].key == key { assert all[i].key == key; }
  }

  /** For a function not yet visited the remaining records are as good as all records. */
  lemma SameRecord(functions: seq<Function>, i: nat, records: seq<Record>)
    requires Profile(records) && DistinctFunctions(functions) && i < |functions|
    ensures var rest, key := Unknown(functions[..i], records), functions[i].key;
            var k, all := Lookup(rest, key), Lookup(records, key);
            (k < |rest| <==> all < |records|) && (k < |rest| ==> rest[k] == records[all])
  {
    LookupUnknown(functions[..i], records, functions[i].key);
  }

  lemma {:induction false} LookupUnknown(functions: seq<Function>, records: seq<Record>, key: Key)
    requires !Known(functions, key)
    ensures var rest := Unknown(functions, records);
            var k, all := Lookup(rest, key), Lookup(records, key);
            (k < |rest| <==> all < |records|) && (k < |rest| ==> rest[k] == records[all])
  {
    if records != [] {
      assert records[0].key == key ==> !Known(functions, records[0].key);
      LookupUnknown(functions, records[1..], key);
      var rest := Unknown(functions, records);
      if !Known(functions, records[0].key) {
        assert rest == [records[0]] + Unknown(functions, records[1..]);
        assert rest[1..] == Unknown(functions, records[1..]);
      } else {
        assert rest == Unknown(functions, records[1..]);
      }
    }
  }
}
