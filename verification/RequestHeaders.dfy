/**
  * Folding of request headers: one value for each case-insensitive name, the ", "-join of its values in the order of
  * their arrival (src/lws_module.c). A first pass counts values and bytes, a second one allocates, a third one copies.
  */
module RequestHeaders {
  import opened ByteStrings
  import opened Wrappers

  datatype Header = Header(name: Bytes, value: Bytes)

  /** What the table of request headers, which ignores case, takes a name for. */
  function NameKey(name: Bytes): Bytes {
    Keys.Fold(true, name)
  }

  /** The same letter, in any case, or the same byte. */
  predicate SameLetter(a: Byte, b: Byte) {
    || a == b
    || ('A' as int <= a <= 'Z' as int && b - 'a' as int == a - 'A' as int)
    || ('A' as int <= b <= 'Z' as int && a - 'a' as int == b - 'A' as int)
  }

  /** Names are the same to the table exactly if they are letter by letter the same but for their case. */
  lemma NamesIgnoreCase(a: Bytes, b: Bytes)
    ensures NameKey(a) == NameKey(b) <==> |a| == |b| && forall i :: 0 <= i < |a| ==> SameLetter(a[i], b[i])
  {
    var s, t := NameKey(a), NameKey(b);
    if |a| == |b| {
      assert forall i :: 0 <= i < |a| ==> (s[i] == t[i] <==> SameLetter(a[i], b[i]));
      assert s == t <==> forall i :: 0 <= i < |a| ==> s[i] == t[i];
    }
  }

  /** The values that arrived under a name. */
  function Values(headers: seq<Header>, key: Bytes): seq<Bytes> {
    if headers == [] then []
    else
      var h := headers[|headers| - 1];
      Values(headers[..|headers| - 1], key) + if NameKey(h.name) == key then [h.value] else []
  }

  /** Every header with the name, in whatever case, contributes its value. */
  lemma ValueOfOne(h: Header, key: Bytes)
    ensures Values([h], key) == if NameKey(h.name) == key then [h.value] else []
  {
    assert [h][..0] == [];
  }

  /** And the values stay in the order of arrival. */
  lemma {:induction false} ValuesInOrder(headers: seq<Header>, more: seq<Header>, key: Bytes)
    ensures Values(headers + more, key) == Values(headers, key) + Values(more, key)
  {
    if more == [] {
      assert headers + more == headers;
    } else {
      var n := |more| - 1;
      assert (headers + more)[..|headers| + n] == headers + more[..n];
      ValuesInOrder(headers, more[..n], key);
    }
  }

  /** The names in the order of their first arrival and in that spelling. */
  function FirstNames(headers: seq<Header>): seq<Bytes> {
    if headers == [] then []
    else
      var before, h := headers[..|headers| - 1], headers[|headers| - 1];
      FirstNames(before) + if Values(before, NameKey(h.name)) == [] then [h.name] else []
  }

  /** A record of the first pass: the first value, the length of the folded value, and the number of values. */
  datatype Record = Record(value: Bytes, len: nat, count: nat)

  ghost predicate Recorded(r: Record, values: seq<Bytes>) {
    values != [] && r.value == values[0] && r.len == |Join(values, FOLD)| && r.count == |values|
  }

  ghost predicate Counted(headers: seq<Header>, records: map<Bytes, Record>) {
    forall key :: if key in records then Recorded(records[key], Values(headers, key)) else Values(headers, key) == []
  }

  lemma OneMoreHeader(headers: seq<Header>, i: nat, key: Bytes)
    requires i < |headers|
    ensures Values(headers[..i + 1], key)
         == if NameKey(headers[i].name) == key then Values(headers[..i], key) + [headers[i].value]
            else Values(headers[..i], key)
    ensures FirstNames(headers[..i + 1])
         == if Values(headers[..i], NameKey(headers[i].name)) == [] then FirstNames(headers[..i]) + [headers[i].name]
            else FirstNames(headers[..i])
  {
    assert headers[..i + 1][..i] == headers[..i];
  }

  /** The record of a name with one more value. */
  function Extended(records: map<Bytes, Record>, key: Bytes, value: Bytes): Record {
    if key in records
    then Record(records[key].value, records[key].len + 2 + |value|, records[key].count + 1)
    else Record(value, |value|, 1)
  }

  lemma OneMoreCounted(headers: seq<Header>, i: nat, records: map<Bytes, Record>)
    requires i < |headers| && Counted(headers[..i], records)
    ensures var key := NameKey(headers[i].name);
            Counted(headers[..i + 1], records[key := Extended(records, key, headers[i].value)])
  {
    hide Values, Join, NameKey;
    var key, value := NameKey(headers[i].name), headers[i].value;
    var after := records[key := Extended(records, key, value)];
    JoinOneMore(Values(headers[..i], key), value, FOLD);
    forall k ensures if k in after then Recorded(after[k], Values(headers[..i + 1], k))
                     else Values(headers[..i + 1], k) == [] {
      OneMoreHeader(headers, i, k);
    }
  }

  method CountPass(headers: seq<Header>) returns (names: seq<Bytes>, records: map<Bytes, Record>)
    ensures Counted(headers, records) && names == FirstNames(headers)
  {
    hide Values, FirstNames, Recorded, NameKey;
    NothingCounted();
    names, records := [], map[];
    assert headers[..0] == [];
    for i := 0 to |headers|
      invariant Counted(headers[..i], records) && names == FirstNames(headers[..i])
    {
      var key, value := NameKey(headers[i].name), headers[i].value;
      OneMoreCounted(headers, i, records);
      OneMoreHeader(headers, i, key);
      if key !in records {
        records := records[key := Record(value, |value|, 1)];
        names := names + [headers[i].name];
      } else {
        var r := records[key];
        WasRecorded(headers[..i], records, key);
        records := records[key := r.(len := r.len + 2 + |value|, count := r.count + 1)];
      }
    }
    assert headers[..|headers|] == headers;
  }

  lemma NothingCounted()
    ensures Counted([], map[]) && FirstNames([]) == []
  {
  }

  lemma WasRecorded(headers: seq<Header>, records: map<Bytes, Record>, key: Bytes)
    requires Counted(headers, records) && key in records
    ensures Values(headers, key) != []
  {
  }

  /** A buffer of the counted length for every name with more than one value. */
  ghost predicate Reserved(records: map<Bytes, Record>, buffers: map<Bytes, array<Byte>>) {
    && (forall key :: key in buffers <==> key in records && records[key].count > 1)
    && (forall key :: key in buffers ==> buffers[key].Length == records[key].len)
    && (forall k, l :: k in buffers && l in buffers && k != l ==> buffers[k] != buffers[l])
  }

  lemma {:induction false} NamesCoverKeys(headers: seq<Header>, key: Bytes)
    ensures Values(headers, key) != [] <==> exists name :: name in FirstNames(headers) && NameKey(name) == key
  {
    if headers != [] {
      var before, h := headers[..|headers| - 1], headers[|headers| - 1];
      NamesCoverKeys(before, key);
      if NameKey(h.name) == key && Values(before, key) == [] { assert h.name in FirstNames(headers); }
      assert forall name :: name in FirstNames(before) ==> name in FirstNames(headers);
    }
  }

  /** No two names are the same but for their case. */
  lemma {:induction false} NamesAreDistinct(headers: seq<Header>)
    ensures var names := FirstNames(headers);
            forall i, j :: 0 <= i < j < |names| ==> NameKey(names[i]) != NameKey(names[j])
  {
    if headers != [] {
      var before, h := headers[..|headers| - 1], headers[|headers| - 1];
      NamesAreDistinct(before);
      NamesCoverKeys(before, NameKey(h.name));
    }
  }

  method AllocatePass(ghost headers: seq<Header>, names: seq<Bytes>, records: map<Bytes, Record>)
      returns (buffers: map<Bytes, array<Byte>>)
    requires Counted(headers, records) && names == FirstNames(headers)
    ensures Reserved(records, buffers)
    ensures forall key :: key in buffers ==> fresh(buffers[key])
  {
    hide Values, FirstNames, Join;
    buffers := map[];
    forall key ensures key in records <==> exists name :: name in names && NameKey(name) == key {
      NamesCoverKeys(headers, key);
    }
    NamesAreDistinct(headers);
    for i := 0 to |names|
      invariant forall key :: key in buffers <==> key in records && records[key].count > 1 && Among(names[..i], key)
      invariant forall key :: key in buffers ==> buffers[key].Length == records[key].len && fresh(buffers[key])
      invariant forall k, l :: k in buffers && l in buffers && k != l ==> buffers[k] != buffers[l]
    {
      var key := NameKey(names[i]);
      assert names[i] in names;
      forall k ensures Among(names[..i + 1], k) <==> Among(names[..i], k) || k == key {
        assert names[..i + 1] == names[..i] + [names[i]];
      }
      if records[key].count > 1 {
        var buffer := new Byte[records[key].len];
        buffers := buffers[key := buffer];
      }
    }
    assert names[..|names|] == names;
  }

  ghost predicate Among(names: seq<Bytes>, key: Bytes) {
    exists name :: name in names && NameKey(name) == key
  }

  /** Copies bytes to a position of a buffer and returns the position after them. */
  method Copy(dst: array<Byte>, at: nat, src: Bytes) returns (next: nat)
    requires at + |src| <= dst.Length
    modifies dst
    ensures next == at + |src| && dst[..next] == old(dst[..at]) + src
  {
    forall i | 0 <= i < |src| { dst[at + i] := src[i]; }
    next := at + |src|;
  }

  /** Earlier values take no more room than all values. */
  lemma {:induction false} RoomForValues(headers: seq<Header>, i: nat, key: Bytes)
    requires i <= |headers|
    ensures Values(headers[..i], key) <= Values(headers, key)
    ensures |Join(Values(headers[..i], key), FOLD)| <= |Join(Values(headers, key), FOLD)|
    decreases |headers| - i
  {
    if i == |headers| {
      assert headers[..i] == headers;
    } else {
      RoomForValues(headers, i + 1, key);
      OneMoreHeader(headers, i, key);
      JoinOneMore(Values(headers[..i], key), headers[i].value, FOLD);
    }
  }

  /** What a buffer holds of the values that arrived so far, and up to where. */
  ghost predicate Holds(buffer: array<Byte>, last: Option<nat>, values: seq<Bytes>)
    reads buffer
  {
    match last
    case None => values == []
    case Some(n) => values != [] && n <= buffer.Length && buffer[..n] == Join(values, FOLD)
  }

  function LastOf(last: map<Bytes, nat>, key: Bytes): Option<nat> {
    if key in last then Some(last[key]) else None
  }

  /** Copies one more value, behind a comma and a space unless it is the first one. */
  method CopyValue(buffer: array<Byte>, last: Option<nat>, value: Bytes, ghost values: seq<Bytes>) returns (next: nat)
    requires Holds(buffer, last, values) && |Join(values + [value], FOLD)| <= buffer.Length
    modifies buffer
    ensures Holds(buffer, Some(next), values + [value])
  {
    hide Join;
    JoinOneMore(values, value, FOLD);
    next := 0;
    if last.Some? {
      next := Copy(buffer, last.value, FOLD);
    }
    next := Copy(buffer, next, value);
  }

  /** Every byte reserved is written, and no other: each buffer ends up holding the join of its values. */
  method CopyPass(headers: seq<Header>, records: map<Bytes, Record>, buffers: map<Bytes, array<Byte>>)
      returns (last: map<Bytes, nat>)
    requires Counted(headers, records) && Reserved(records, buffers)
    modifies buffers.Values
    ensures forall key :: key in buffers ==> key in last && last[key] == buffers[key].Length
    ensures forall key :: key in buffers ==> buffers[key][..] == Join(Values(headers, key), FOLD)
  {
    hide Join, Values;
    last := map[];
    forall key ensures Values([], key) == [] { NothingArrived(key); }
    assert headers[..0] == [];
    for i := 0 to |headers|
      invariant forall key :: key in buffers ==> Holds(buffers[key], LastOf(last, key), Values(headers[..i], key))
    {
      var key, value := NameKey(headers[i].name), headers[i].value;
      forall k ensures Values(headers[..i + 1], k)
                    == if k == key then Values(headers[..i], key) + [value] else Values(headers[..i], k) {
        OneMoreHeader(headers, i, k);
      }
      RoomForValues(headers, i + 1, key);
      assert Values(headers, key) != [];
      if records[key].count == 1 {
        continue;
      }
      var at := CopyValue(buffers[key], LastOf(last, key), value, Values(headers[..i], key));
      last := last[key := at];
    }
    assert headers[..|headers|] == headers;
  }

  lemma NothingArrived(key: Bytes)
    ensures Values([], key) == []
  {
  }

  /** The table of the request headers: its names in order, and the value of each. */
  method FoldHeaders(headers: seq<Header>) returns (names: seq<Bytes>, values: map<Bytes, Bytes>)
    ensures names == FirstNames(headers)
    ensures forall key :: key in values <==> Values(headers, key) != []
    ensures forall key :: key in values ==> values[key] == Join(Values(headers, key), [',' as int, ' ' as int])
  {
    var records;
    names, records := CountPass(headers);
    var buffers := AllocatePass(headers, names, records);
    var last := CopyPass(headers, records, buffers);
    values := map key | key in records :: if records[key].count > 1 then buffers[key][..] else records[key].value;
  }
}
