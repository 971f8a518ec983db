/** Parsing of form-encoded arguments into a table (src/lws_lib.c), and its inverse, the form serializer. */
module Arguments {
  import opened ByteStrings
  import opened Decoding

  const INT_MAX := 0x7FFF_FFFF

  datatype Field = Field(name: Bytes, value: Bytes)

  /** What a field leaves of its name: all before the first equals sign. */
  function NameEnd(part: Bytes): (n: nat)
    ensures n <= |part|
    ensures EQUALS !in part[..n] && (n < |part| ==> part[n] == EQUALS)
  {
    if part == [] || part[0] == '=' as int then 0
    else
      var n := NameEnd(part[1..]);
      assert part[..n + 1] == [part[0]] + part[1..][..n];
      n + 1
  }

  lemma {:induction false} NameEndUnique(part: Bytes, n: nat)
    requires n <= |part| && EQUALS !in part[..n] && (n < |part| ==> part[n] == EQUALS)
    ensures NameEnd(part) == n
  {
    if n > 0 {
      assert part[0] == part[..n][0] && part[1..][..n - 1] == part[..n][1..];
      NameEndUnique(part[1..], n - 1);
    }
  }

  function FieldOf(part: Bytes): Field {
    var n := NameEnd(part);
    Field(FormDecode(part[..n]), if n < |part| then FormDecode(part[n + 1..]) else [])
  }

  /** Empty parts are skipped. */
  function FieldsOf(parts: seq<Bytes>): seq<Field> {
    if parts == [] then []
    else
      var rest, part := FieldsOf(parts[..|parts| - 1]), parts[|parts| - 1];
      if part == [] then rest else rest + [FieldOf(part)]
  }

  /** A part is split at its first equals sign; without one it is a name with an empty value. */
  lemma FieldByText(name: Bytes, value: Bytes)
    requires '=' as int !in name
    ensures FieldOf(name) == Field(FormDecode(name), [])
    ensures FieldOf(name + ['=' as int] + value) == Field(FormDecode(name), FormDecode(value))
  {
    hide FormDecode;
    assert name[..|name|] == name;
    NameEndUnique(name, |name|);
    var part := name + ['=' as int] + value;
    assert part[..|name|] == name && part[|name| + 1..] == value;
    NameEndUnique(part, |name|);
  }

  /** The table after storing the fields one after the other. */
  function Stored(fields: seq<Field>): map<Bytes, Bytes> {
    if fields == [] then map[]
    else
      var last := fields[|fields| - 1];
      Stored(fields[..|fields| - 1])[last.name := last.value]
  }

  ghost predicate IsLast(fields: seq<Field>, name: Bytes, i: int) {
    0 <= i < |fields| && fields[i].name == name && forall j :: i < j < |fields| ==> fields[j].name != name
  }

  /** The last value stored under a name wins. */
  lemma {:induction false} LastValueWins(fields: seq<Field>, name: Bytes)
    ensures name in Stored(fields) <==> exists i :: 0 <= i < |fields| && fields[i].name == name
    ensures forall i :: IsLast(fields, name, i) ==> Stored(fields)[name] == fields[i].value
  {
    if fields != [] {
      var front := fields[..|fields| - 1];
      LastValueWins(front, name);
      assert forall i :: 0 <= i < |front| ==> front[i] == fields[i];
      forall i | IsLast(fields, name, i) ensures Stored(fields)[name] == fields[i].value {
        if i < |front| { assert IsLast(front, name, i); }
      }
      assert fields[|fields| - 1].name == name || (name in Stored(fields) <==> name in Stored(front));
    }
  }

  /** The standard's reading of a whole argument string (section 5.1 of the WHATWG URL Standard). */
  function Meaning(args: Bytes): map<Bytes, Bytes> {
    Stored(FieldsOf(Split(args, '&' as int)))
  }

  datatype ParseResult = Parsed(table: map<Bytes, Bytes>) | LimitOutOfRange | TooManyFields

  lemma OneMorePart(done: seq<Bytes>, part: Bytes)
    ensures FieldsOf(done + [part]) == if part == [] then FieldsOf(done) else FieldsOf(done) + [FieldOf(part)]
  {
    assert (done + [part])[..|done|] == done;
  }

  lemma OneMoreField(fields: seq<Field>, field: Field)
    ensures Stored(fields + [field]) == Stored(fields)[field.name := field.value]
  {
    assert (fields + [field])[..|fields|] == fields;
  }

  lemma NothingStored()
    ensures FieldsOf([]) == [] && Stored([]) == map[]
  {
  }

  /** Every part contributes its field, but for the empty ones ... */
  lemma FieldOfOne(part: Bytes)
    ensures FieldsOf([part]) == if part == [] then [] else [FieldOf(part)]
  {
    hide FieldsOf, FieldOf;
    NothingStored();
    OneMorePart([], part);
    assert [] + [part] == [part];
  }

  /** ... and the fields stay in order. */
  lemma {:induction false} FieldsInOrder(parts: seq<Bytes>, more: seq<Bytes>)
    ensures FieldsOf(parts + more) == FieldsOf(parts) + FieldsOf(more)
  {
    hide FieldsOf, FieldOf;
    NothingStored();
    if more == [] {
      assert parts + more == parts;
    } else {
      var front, part := more[..|more| - 1], more[|more| - 1];
      FieldsInOrder(parts, front);
      OneMorePart(parts + front, part);
      OneMorePart(front, part);
      assert more == front + [part] && parts + more == (parts + front) + [part];
    }
  }

  lemma MeaningOfNothing()
    ensures Meaning([]) == map[]
  {
    assert Split([], AMPERSAND) == [[]];
    assert FieldsOf([[]]) == [];
  }

  /** Counts the fields that an argument string may hold; no result when there are more than allowed. */
  method CountFields(args: Bytes, maxFields: int) returns (ok: bool)
    requires 0 < maxFields <= INT_MAX
    ensures ok <==> |Split(args, AMPERSAND)| <= maxFields
  {
    PartsCountSeparators(args, AMPERSAND);
    var pos, nrec := 0, 1;
    while pos < |args|
      invariant 0 <= pos <= |args|
      invariant nrec == Count(args[..pos], AMPERSAND) + 1 <= maxFields
    {
      CountAppend(args[..pos], args[pos..pos + 1], AMPERSAND);
      assert args[..pos + 1] == args[..pos] + args[pos..pos + 1];
      CountAppend(args[..pos + 1], args[pos + 1..], AMPERSAND);
      assert args == args[..pos + 1] + args[pos + 1..];
      pos := pos + 1;
      if args[pos - 1] == AMPERSAND {
        if nrec == maxFields { return false; }
        nrec := nrec + 1;
      }
    }
    assert args[..pos] == args;
    return true;
  }

  /** Unescapes one name or value through a buffer of its own length. */
  method Unescaped(piece: Bytes) returns (text: Bytes)
    ensures text == FormDecode(piece)
  {
    if |piece| == 0 {
      NothingToDecode();
      return [];
    }
    var buffer := new Byte[|piece|];
    var n := UnescapeUrl(buffer, 0, piece);
    text := buffer[..n];
    assert text == buffer[0..n];
  }

  /** The current part so far is a name without separators, and its equals sign. */
  ghost predicate NameRead(read: Bytes, name: Bytes) {
    var n := |read| - 1;
    && n >= 0 && read[n] == EQUALS
    && EQUALS !in read[..n] && AMPERSAND !in read[..n]
    && name == FormDecode(read[..n])
  }

  lemma NameHoldsNoAmpersand(read: Bytes, name: Bytes)
    requires NameRead(read, name)
    ensures AMPERSAND !in read
  {
    hide FormDecode;
    assert read == read[..|read| - 1] + [EQUALS];
  }

  /** A part whose name and value have been read, in one or two pieces, is the first one of what was left to read. */
  lemma PartDone(rest: Bytes, start: nat, n: nat, inValue: bool, name: Bytes)
    requires start <= n <= |rest|
    requires AMPERSAND !in rest[start..n] && (n < |rest| ==> rest[n] == AMPERSAND)
    requires if inValue then 0 < start && NameRead(rest[..start], name) else start == 0
    ensures Split(rest, AMPERSAND) == if n < |rest| then [rest[..n]] + Split(rest[n + 1..], AMPERSAND) else [rest[..n]]
  {
    hide Split, NameRead;
    if inValue {
      NameHoldsNoAmpersand(rest[..start], name);
    } else {
      assert rest[..start] == [];
    }
    NotInEither(rest, start, n, AMPERSAND);
    SplitFirst(rest, AMPERSAND, n);
  }

  /** And it adds the field so read to the table, if it is not empty. */
  lemma FieldDone(done: seq<Bytes>, part: Bytes, start: nat, inValue: bool, name: Bytes, text: Bytes)
    requires start <= |part| && text == FormDecode(part[start..])
    requires if inValue then 0 < start && NameRead(part[..start], name) else start == 0 && EQUALS !in part
    ensures Stored(FieldsOf(done + [part]))
         == if inValue then Stored(FieldsOf(done))[name := text]
            else if part != [] then Stored(FieldsOf(done))[text := []] else Stored(FieldsOf(done))
  {
    hide FieldsOf, Stored, FormDecode;
    OneMorePart(done, part);
    if inValue {
      var k := start - 1;
      assert part[..k] == part[..start][..k] && part[start - 1] == part[..start][k];
      NameEndUnique(part, k);
      assert FieldOf(part) == Field(name, text);
    } else {
      assert part[..|part|] == part[0..] == part;
      NameEndUnique(part, |part|);
      assert FieldOf(part) == Field(text, []);
    }
    OneMoreField(FieldsOf(done), FieldOf(part));
  }

  /** What the end of a part at pos means for the parts done and for the table. */
  lemma Finished(args: Bytes, done: seq<Bytes>, begin: nat, start: nat, pos: nat, inValue: bool, name: Bytes,
                 text: Bytes)
    requires begin <= start <= pos <= |args|
    requires done + Split(args[begin..], AMPERSAND) == Split(args, AMPERSAND)
    requires AMPERSAND !in args[start..pos] && (pos < |args| ==> args[pos] == AMPERSAND)
    requires text == FormDecode(args[start..pos])
    requires if inValue then begin < start && NameRead(args[begin..start], name)
             else begin == start && EQUALS !in args[start..pos]
    ensures pos < |args| ==> done + [args[begin..pos]] + Split(args[pos + 1..], AMPERSAND) == Split(args, AMPERSAND)
    ensures pos == |args| ==> done + [args[begin..pos]] == Split(args, AMPERSAND)
    ensures Stored(FieldsOf(done + [args[begin..pos]]))
         == if inValue then Stored(FieldsOf(done))[name := text]
            else if pos > begin then Stored(FieldsOf(done))[text := []] else Stored(FieldsOf(done))
  {
    hide Split, FieldsOf, Stored, FormDecode, NameRead;
    var part, rest, k, n := args[begin..pos], args[begin..], start - begin, pos - begin;
    Slices(args, begin, start, pos);
    PartDone(rest, k, n, inValue, name);
    FieldDone(done, part, k, inValue, name, text);
  }

  lemma NameDone(args: Bytes, start: nat, pos: nat)
    requires start <= pos < |args| && args[pos] == EQUALS
    requires AMPERSAND !in args[start..pos] && EQUALS !in args[start..pos]
    ensures NameRead(args[start..pos + 1], FormDecode(args[start..pos]))
  {
    assert args[start..pos + 1][..pos - start] == args[start..pos];
  }

  /** lws.parseargs: the table of the decoded fields, unless there are more than limit of them. */
  method ParseArgs(args: Bytes, limit: int) returns (result: ParseResult)
    ensures result == if !(0 < limit < 0x8000_0000) then LimitOutOfRange
                      else if args != [] && |Split(args, '&' as int)| > limit then TooManyFields
                      else Parsed(Meaning(args))
  {
    hide FormDecode, Split, FieldsOf, Stored, NameRead;
    if !(0 < limit <= INT_MAX) { return LimitOutOfRange; }
    if |args| == 0 {
      MeaningOfNothing();
      return Parsed(map[]);
    }
    var fits := CountFields(args, limit);
    if !fits { return TooManyFields; }

    var table: map<Bytes, Bytes>, pos, inValue, name: Bytes := map[], 0, false, [];
    ghost var done: seq<Bytes>, begin := [], 0;
    assert Stored(FieldsOf([])) == map[] by { NothingStored(); }
    assert args[0..] == args;
    while true
      invariant 0 <= begin <= pos <= |args|
      invariant done + Split(args[begin..], AMPERSAND) == Split(args, AMPERSAND)
      invariant table == Stored(FieldsOf(done))
      invariant !inValue ==> begin == pos
      invariant inValue ==> begin < pos && NameRead(args[begin..pos], name)
      decreases |args| - pos
    {
      var start := pos;
      while pos < |args| && args[pos] != AMPERSAND && (inValue || args[pos] != EQUALS)
        invariant start <= pos <= |args|
        invariant AMPERSAND !in args[start..pos] && (!inValue ==> EQUALS !in args[start..pos])
      {
        assert args[start..pos + 1] == args[start..pos] + [args[pos]];
        pos := pos + 1;
      }
      var text := Unescaped(args[start..pos]);
      if !inValue && pos < |args| && args[pos] == EQUALS {
        name, inValue := text, true;
        NameDone(args, start, pos);
      } else {
        ghost var part := args[begin..pos];
        Finished(args, done, begin, start, pos, inValue, name, text);
        if inValue {
          table, inValue := table[name := text], false;
        } else if pos > start {
          table := table[text := []];
        }
        done := done + [part];
        if pos < |args| { begin := pos + 1; }
      }
      if pos >= |args| {
        break;
      }
      pos := pos + 1;
    }
    return Parsed(table);
  }

  /** Section 5.2: the bytes that the serializer keeps. */
  predicate Kept(b: Byte) {
    48 <= b <= 57 || 65 <= b <= 90 || 97 <= b <= 122 || b == 42 || b == 45 || b == 46 || b == 95
  }

  /** The escaping of the serializer, which writes hex digits in capitals; parsers also take small letters. */
  function Escaped(text: Bytes, capital: bool): Bytes {
    if text == [] then []
    else
      var b := text[0];
      var escape :=
        if b == ' ' as int then ['+' as int]
        else if Kept(b) then [b]
        else ['%' as int, HexDigit(b / 16, capital), HexDigit(b % 16, capital)];
      escape + Escaped(text[1..], capital)
  }

  function Serialized(field: Field, capital: bool): Bytes {
    Escaped(field.name, capital) + ['=' as int] + Escaped(field.value, capital)
  }

  function SerializedAll(fields: seq<Field>, capital: bool): (parts: seq<Bytes>)
    ensures |parts| == |fields|
  {
    if fields == [] then []
    else SerializedAll(fields[..|fields| - 1], capital) + [Serialized(fields[|fields| - 1], capital)]
  }

  function Serialize(fields: seq<Field>, capital: bool): Bytes {
    Join(SerializedAll(fields, capital), ['&' as int])
  }

  lemma {:induction false} DecodingUndoesEscaping(text: Bytes, capital: bool)
    ensures FormDecode(Escaped(text, capital)) == text
    ensures AMPERSAND !in Escaped(text, capital) && EQUALS !in Escaped(text, capital)
  {
    hide FormDecode;
    if text == [] {
      NothingToDecode();
    } else {
      var b, rest := text[0], Escaped(text[1..], capital);
      DecodingUndoesEscaping(text[1..], capital);
      var s := Escaped(text, capital);
      DecodeOneStep(s);
      if b == SPACE || Kept(b) {
        assert s[1..] == rest;
      } else {
        assert s[3..] == rest;
        HexDigits(s[1]);
        HexDigits(s[2]);
        assert s[1] == HexDigit(b / 16, capital) && s[2] == HexDigit(b % 16, capital);
      }
      assert text == [b] + text[1..];
    }
  }

  lemma FieldOfSerialized(field: Field, capital: bool)
    ensures FieldOf(Serialized(field, capital)) == field
    ensures AMPERSAND !in Serialized(field, capital) && Serialized(field, capital) != []
  {
    hide FormDecode;
    var name, value, part := Escaped(field.name, capital), Escaped(field.value, capital), Serialized(field, capital);
    DecodingUndoesEscaping(field.name, capital);
    DecodingUndoesEscaping(field.value, capital);
    assert part[..|name|] == name && part[|name| + 1..] == value;
    NameEndUnique(part, |name|);
  }

  lemma {:induction false} FieldsOfSerialized(fields: seq<Field>, capital: bool)
    ensures FieldsOf(SerializedAll(fields, capital)) == fields
    ensures forall p :: p in SerializedAll(fields, capital) ==> AMPERSAND !in p && p != []
  {
    hide FieldOf, Serialized, FieldsOf;
    if fields == [] {
      assert FieldsOf([]) == [] by { NothingStored(); }
    } else {
      var front, last := fields[..|fields| - 1], fields[|fields| - 1];
      FieldsOfSerialized(front, capital);
      FieldOfSerialized(last, capital);
      OneMorePart(SerializedAll(front, capital), Serialized(last, capital));
      assert fields == front + [last];
    }
  }

  /** Parsing inverts the serializer: what comes back is the table of the fields, and it takes one part for each. */
  lemma ParsingUndoesSerializing(fields: seq<Field>, capital: bool)
    ensures Meaning(Serialize(fields, capital)) == Stored(fields)
    ensures fields != [] ==> |Split(Serialize(fields, capital), AMPERSAND)| == |fields|
  {
    var parts := SerializedAll(fields, capital);
    FieldsOfSerialized(fields, capital);
    if fields != [] {
      SplitOfJoin(parts, AMPERSAND);
    } else {
      assert Split([], AMPERSAND) == [[]];
    }
  }
}
