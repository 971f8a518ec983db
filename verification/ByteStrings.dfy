/** Byte strings: splitting at a separator and joining. */
module ByteStrings {
  import Keys

  type Byte = Keys.Byte

  type Bytes = seq<Byte>

  const SPACE: Byte := 32
  const COMMA: Byte := 44

  /** What separates values folded into one. */
  const FOLD: Bytes := [COMMA, SPACE]

  /** The parts between the occurrences of sep; always at least one. */
  function Split(s: Bytes, sep: Byte): (parts: seq<Bytes>)
    ensures parts != []
  {
    if s == [] then [[]]
    else
      var rest := Split(s[1..], sep);
      if s[0] == sep then [[]] + rest else [[s[0]] + rest[0]] + rest[1..]
  }

  function Join(parts: seq<Bytes>, sep: Bytes): Bytes {
    if parts == [] then []
    else if |parts| == 1 then parts[0]
    else parts[0] + sep + Join(parts[1..], sep)
  }

  function Count(s: Bytes, b: Byte): nat {
    if s == [] then 0 else (if s[0] == b then 1 else 0) + Count(s[1..], b)
  }

  /** Slices of slices. */
  lemma Slices(s: Bytes, a: nat, b: nat, c: nat)
    requires a <= b <= c <= |s|
    ensures s[a..][..c - a] == s[a..c] && s[a..][..b - a] == s[a..b] && s[a..][b - a..c - a] == s[b..c]
    ensures s[a..c][..b - a] == s[a..b] && s[a..c][b - a..] == s[b..c]
    ensures c < |s| ==> s[a..][c - a] == s[c] && s[a..][c - a + 1..] == s[c + 1..]
  {
  }

  lemma NotInEither(s: Bytes, b: nat, c: nat, x: Byte)
    requires b <= c <= |s| && x !in s[..b] && x !in s[b..c]
    ensures x !in s[..c]
  {
    assert s[..c] == s[..b] + s[b..c];
  }

  /** A stretch without separators goes to the first part. */
  lemma {:induction false} SplitAfter(s: Bytes, sep: Byte, n: nat)
    requires n <= |s| && sep !in s[..n]
    ensures Split(s, sep) == [s[..n] + Split(s[n..], sep)[0]] + Split(s[n..], sep)[1..]
  {
    if n == 0 {
      var parts := Split(s, sep);
      assert s[..0] == [] && s[0..] == s;
      assert [] + parts[0] == parts[0] && parts == [parts[0]] + parts[1..];
    } else {
      assert s[0] == s[..n][0] && s[1..][..n - 1] == s[..n][1..];
      assert s[1..][n - 1..] == s[n..];
      SplitAfter(s[1..], sep, n - 1);
      var rest := Split(s[n..], sep);
      assert [s[0]] + (s[1..][..n - 1] + rest[0]) == s[..n] + rest[0];
    }
  }

  lemma SplitHere(s: Bytes, sep: Byte)
    requires s == [] || s[0] == sep
    ensures Split(s, sep) == [[]] + if s == [] then [] else Split(s[1..], sep)
  {
  }

  /** A stretch up to the first separator, or to the end, is the first part. */
  lemma SplitFirst(s: Bytes, sep: Byte, n: nat)
    requires n <= |s| && sep !in s[..n] && (n < |s| ==> s[n] == sep)
    ensures Split(s, sep) == [s[..n]] + if n < |s| then Split(s[n + 1..], sep) else []
  {
    hide Split;
    SplitAfter(s, sep, n);
    SplitHere(s[n..], sep);
    assert s[..n] + [] == s[..n];
    if n < |s| { assert s[n..][1..] == s[n + 1..]; }
  }

  /** Splitting undoes joining: the parts come back as they were when none of them holds the separator. */
  lemma {:induction false} SplitOfJoin(parts: seq<Bytes>, sep: Byte)
    requires parts != [] && forall p :: p in parts ==> sep !in p
    ensures Split(Join(parts, [sep]), sep) == parts
  {
    var s, n := Join(parts, [sep]), |parts[0]|;
    assert s[..n] == parts[0];
    SplitAfter(s, sep, n);
    if |parts| > 1 {
      SplitOfJoin(parts[1..], sep);
      assert s[n..][0] == sep && s[n..][1..] == Join(parts[1..], [sep]);
      assert s[..n] + [] == parts[0];
      assert Split(s, sep) == [parts[0]] + parts[1..];
    } else {
      assert s[n..] == [] && s[..n] + [] == parts[0];
    }
  }

  /** Joining undoes splitting. */
  lemma {:induction false} JoinOfSplit(s: Bytes, sep: Byte)
    ensures Join(Split(s, sep), [sep]) == s
    ensures forall p :: p in Split(s, sep) ==> sep !in p
  {
    if s != [] {
      JoinOfSplit(s[1..], sep);
      var rest := Split(s[1..], sep);
      if s[0] == sep {
        JoinFirst([], rest, [sep]);
        assert s == [sep] + s[1..];
      } else {
        var parts := [[s[0]] + rest[0]] + rest[1..];
        assert Join(parts, [sep]) == [s[0]] + Join(rest, [sep]) by { JoinExtended([s[0]], rest, [sep]); }
        assert sep !in [s[0]] + rest[0];
        assert s == [s[0]] + s[1..];
      }
    }
  }

  lemma JoinFirst(first: Bytes, parts: seq<Bytes>, sep: Bytes)
    requires parts != []
    ensures Join([first] + parts, sep) == first + sep + Join(parts, sep)
  {
    assert ([first] + parts)[1..] == parts;
  }

  lemma JoinExtended(prefix: Bytes, parts: seq<Bytes>, sep: Bytes)
    requires parts != []
    ensures Join([prefix + parts[0]] + parts[1..], sep) == prefix + Join(parts, sep)
  {
    var longer := [prefix + parts[0]] + parts[1..];
    assert longer[1..] == parts[1..];
    if |parts| > 1 {
      assert Join(longer, sep) == (prefix + parts[0]) + sep + Join(parts[1..], sep);
    }
  }

  lemma {:induction false} PartsCountSeparators(s: Bytes, sep: Byte)
    ensures |Split(s, sep)| == Count(s, sep) + 1
  {
    if s != [] { PartsCountSeparators(s[1..], sep); }
  }

  lemma {:induction false} CountAppend(s: Bytes, t: Bytes, b: Byte)
    ensures Count(s + t, b) == Count(s, b) + Count(t, b)
  {
    if s == [] {
      assert s + t == t;
    } else {
      assert (s + t)[1..] == s[1..] + t;
      CountAppend(s[1..], t, b);
    }
  }

  lemma {:induction false} JoinOneMore(parts: seq<Bytes>, part: Bytes, sep: Bytes)
    ensures Join(parts + [part], sep) == if parts == [] then part else Join(parts, sep) + sep + part
  {
    if |parts| > 1 {
      assert (parts + [part])[1..] == parts[1..] + [part];
      JoinOneMore(parts[1..], part, sep);
      assert Join(parts + [part], sep) == parts[0] + sep + (Join(parts[1..], sep) + sep + part);
    }
  }
}
