/**
  * Set-Cookie headers: a value that folds several cookies is unfolded again (src/lws_module.c). The comma inside an
  * Expires attribute (section 4.1.1 of RFC 6265; dates as in section 5.6.7 of RFC 9110) does not separate cookies.
  */
module Cookies {
  import opened ByteStrings

  const TAB: Byte := 9
  const SEMICOLON: Byte := 59

  /** "expires=" */
  const EXPIRES: Bytes := [101, 120, 112, 105, 114, 101, 115, 61]

  predicate IsBlank(b: Byte) {
    b == SPACE || b == TAB
  }

  /** What remains after leading spaces and tabs. */
  function AfterBlanks(v: Bytes): Bytes {
    if v == [] || !IsBlank(v[0]) then v else AfterBlanks(v[1..])
  }

  /** What remains after leading spaces. */
  function AfterSpaces(v: Bytes): (rest: Bytes)
    ensures |rest| <= |v|
  {
    if v == [] || v[0] != SPACE then v else AfterSpaces(v[1..])
  }

  predicate StartsExpires(v: Bytes) {
    |v| >= |EXPIRES| && Keys.Fold(true, v[..|EXPIRES|]) == EXPIRES
  }

  /** Whether the attribute that starts here is an Expires attribute. */
  predicate IsExpires(attribute: Bytes) {
    StartsExpires(AfterBlanks(attribute))
  }

  /** An attribute is an Expires attribute if behind spaces and tabs it starts with the word, in any case, and "=". */
  ghost predicate NamedExpires(attribute: Bytes, k: nat) {
    && k + 8 <= |attribute|
    && (forall i :: 0 <= i < k ==> attribute[i] == ' ' as int || attribute[i] == '\t' as int)
    && (attribute[k] == 'e' as int || attribute[k] == 'E' as int)
    && (attribute[k + 1] == 'x' as int || attribute[k + 1] == 'X' as int)
    && (attribute[k + 2] == 'p' as int || attribute[k + 2] == 'P' as int)
    && (attribute[k + 3] == 'i' as int || attribute[k + 3] == 'I' as int)
    && (attribute[k + 4] == 'r' as int || attribute[k + 4] == 'R' as int)
    && (attribute[k + 5] == 'e' as int || attribute[k + 5] == 'E' as int)
    && (attribute[k + 6] == 's' as int || attribute[k + 6] == 'S' as int)
    && attribute[k + 7] == '=' as int
  }

  lemma StartsExpiresByName(v: Bytes)
    ensures StartsExpires(v) <==> NamedExpires(v, 0)
  {
    if |v| >= 8 {
      var folded := Keys.Fold(true, v[..8]);
      assert folded == EXPIRES <==> forall i :: 0 <= i < 8 ==> folded[i] == EXPIRES[i];
      assert forall i :: 0 <= i < 8 ==> folded[i] == Keys.ToLower(v[i]);
    }
  }

  lemma {:induction false} ExpiresByName(attribute: Bytes)
    ensures IsExpires(attribute) <==> exists k: nat :: NamedExpires(attribute, k)
  {
    hide StartsExpires;
    if attribute != [] && IsBlank(attribute[0]) {
      ExpiresByName(attribute[1..]);
      BlankBefore(attribute);
    } else {
      StartsExpiresByName(attribute);
      if k: nat :| NamedExpires(attribute, k) {
        assert k == 0;
      }
    }
  }

  lemma BlankBefore(attribute: Bytes)
    requires attribute != [] && IsBlank(attribute[0])
    ensures (exists k: nat :: NamedExpires(attribute, k)) <==> exists k: nat :: NamedExpires(attribute[1..], k)
  {
    if k: nat :| NamedExpires(attribute, k) { assert NamedExpires(attribute[1..], k - 1); }
    if k: nat :| NamedExpires(attribute[1..], k) { assert NamedExpires(attribute, k + 1); }
  }

  /** The length of the first piece: up to the first comma that is not the one of an Expires attribute. */
  function PieceLength(v: Bytes, expires: bool): (n: nat)
    ensures n <= |v| && (n < |v| ==> v[n] == COMMA)
  {
    if v == [] || (v[0] == COMMA && !expires) then 0
    else 1 + PieceLength(v[1..], NowExpires(v, expires))
  }

  /** The flag after the first byte: set or cleared by a semicolon, cleared by the comma of the date. */
  predicate NowExpires(v: Bytes, expires: bool)
    requires v != []
  {
    if v[0] == SEMICOLON then IsExpires(v[1..]) else if v[0] == COMMA then false else expires
  }

  /** The pieces of a value. */
  function Unfolded(v: Bytes): (pieces: seq<Bytes>)
    ensures pieces != []
    decreases |v|
  {
    var n := PieceLength(v, false);
    if n == |v| then [v]
    else
      var rest := AfterSpaces(v[n + 1..]);
      if rest == [] then [v[..n]] else [v[..n]] + Unfolded(rest)
  }

  lemma BlankSkipped(value: Bytes, i: nat)
    requires i < |value| && IsBlank(value[i])
    ensures AfterBlanks(value[i..]) == AfterBlanks(value[i + 1..])
  {
    assert value[i..][1..] == value[i + 1..];
  }

  lemma SpaceSkipped(value: Bytes, i: nat)
    requires i < |value| && value[i] == SPACE
    ensures AfterSpaces(value[i..]) == AfterSpaces(value[i + 1..])
  {
    assert value[i..][1..] == value[i + 1..];
  }

  lemma ByteScanned(value: Bytes, i: nat, expires: bool)
    requires i < |value| && (value[i] == COMMA ==> expires)
    ensures var flag := if value[i] == SEMICOLON then IsExpires(value[i + 1..]) else value[i] != COMMA && expires;
            PieceLength(value[i..], expires) == 1 + PieceLength(value[i + 1..], flag)
  {
    hide IsExpires;
    assert value[i..][1..] == value[i + 1..];
  }

  /** The look-ahead after a semicolon. */
  method ExpiresFollows(value: Bytes, from: nat) returns (expires: bool)
    requires from <= |value|
    ensures expires == IsExpires(value[from..])
  {
    hide AfterBlanks, StartsExpires;
    var attr := from;
    while attr < |value| && (value[attr] == SPACE || value[attr] == TAB)
      invariant from <= attr <= |value|
      invariant AfterBlanks(value[attr..]) == AfterBlanks(value[from..])
    {
      BlankSkipped(value, attr);
      attr := attr + 1;
    }
    expires := |value| - attr >= 8 && Keys.Fold(true, value[attr..attr + 8]) == EXPIRES;
    LookedAt(value, attr);
  }

  lemma LookedAt(value: Bytes, i: nat)
    requires i <= |value| && (i < |value| ==> !IsBlank(value[i]))
    ensures StartsExpires(AfterBlanks(value[i..])) <==>
            |value| - i >= 8 && Keys.Fold(true, value[i..i + 8]) == EXPIRES
  {
    if |value| - i >= 8 { assert value[i..][..8] == value[i..i + 8]; }
  }

  /** The end of the piece that starts here. */
  method PieceEnd(value: Bytes, start: nat) returns (pos: nat)
    requires start <= |value|
    ensures start <= pos <= |value| && pos - start == PieceLength(value[start..], false)
  {
    hide IsExpires, PieceLength;
    pos := start;
    var expires := false;
    while pos < |value|
      invariant start <= pos <= |value|
      invariant pos - start + PieceLength(value[pos..], expires) == PieceLength(value[start..], false)
    {
      if value[pos] == COMMA && !expires {
        PieceEnded(value[pos..], expires);
        return;
      }
      ByteScanned(value, pos, expires);
      if value[pos] == SEMICOLON {
        expires := ExpiresFollows(value, pos + 1);
      } else if value[pos] == COMMA {
        expires := false;
      }
      pos := pos + 1;
    }
    PieceEnded(value[pos..], expires);
  }

  lemma PieceEnded(rest: Bytes, expires: bool)
    requires rest == [] || (rest[0] == COMMA && !expires)
    ensures PieceLength(rest, expires) == 0
  {
  }

  /** The unfolding loop: pieces up to a separating comma, without the spaces after it. */
  method Unfold(value: Bytes) returns (pieces: seq<Bytes>)
    ensures pieces == Unfolded(value)
  {
    hide AfterSpaces, PieceLength, Unfolded;
    var start := 0;
    pieces := [];
    assert value[0..] == value;
    while true
      invariant 0 <= start <= |value|
      invariant pieces + Unfolded(value[start..]) == Unfolded(value)
      decreases |value| - start
    {
      var pos := PieceEnd(value, start);
      PieceTaken(value, start, pos);
      pieces := pieces + [value[start..pos]];
      if pos == |value| {
        break;
      }
      start := pos + 1;
      while start < |value| && value[start] == SPACE
        invariant pos < start <= |value|
        invariant AfterSpaces(value[start..]) == AfterSpaces(value[pos + 1..])
      {
        SpaceSkipped(value, start);
        start := start + 1;
      }
      NoSpaces(value[start..]);
      if start == |value| {
        break;
      }
    }
  }

  lemma NoSpaces(v: Bytes)
    requires v == [] || v[0] != SPACE
    ensures AfterSpaces(v) == v
  {
  }

  lemma PieceTaken(value: Bytes, start: nat, pos: nat)
    requires start <= pos <= |value| && pos - start == PieceLength(value[start..], false)
    ensures Unfolded(value[start..]) ==
            if pos == |value| || AfterSpaces(value[pos + 1..]) == [] then [value[start..pos]]
            else [value[start..pos]] + Unfolded(AfterSpaces(value[pos + 1..]))
  {
    hide PieceLength, AfterSpaces;
    var v, n := value[start..], pos - start;
    assert v[..n] == value[start..pos];
    if pos < |value| { assert v[n + 1..] == value[pos + 1..]; }
    if n == |v| { assert v[..n] == v; }
  }

  // What the pieces of any value are.

  ghost predicate OnlySpaces(v: Bytes) {
    forall i :: 0 <= i < |v| ==> v[i] == ' ' as int
  }

  /** The pieces lie in v one after the other, between them one comma and spaces; nothing else is left out. */
  ghost predicate Separated(v: Bytes, pieces: seq<Bytes>)
    decreases |pieces|
  {
    && pieces != [] && pieces[0] <= v
    && var rest := v[|pieces[0]|..];
       if |pieces| == 1 then rest == [] || (rest[0] == ',' as int && OnlySpaces(rest[1..]))
       else exists k :: 1 <= k < |rest| && rest[0] == ',' as int && OnlySpaces(rest[1..k])
                        && Separated(rest[k..], pieces[1..])
  }

  lemma {:induction false} SpacesSkipped(v: Bytes)
    ensures var k := |v| - |AfterSpaces(v)|; OnlySpaces(v[..k]) && AfterSpaces(v) == v[k..]
    ensures AfterSpaces(v) != [] ==> AfterSpaces(v)[0] != SPACE
  {
    if v != [] && v[0] == SPACE {
      SpacesSkipped(v[1..]);
      var k := |v| - |AfterSpaces(v)|;
      assert v[..k] == [v[0]] + v[1..][..k - 1];
    }
  }

  lemma OnePieceMore(piece: Bytes, spaces: Bytes, after: Bytes, pieces: seq<Bytes>)
    requires OnlySpaces(spaces) && after != [] && pieces != [] && Separated(after, pieces)
    ensures Separated(piece + [COMMA] + spaces + after, [piece] + pieces)
  {
    var v, k := piece + [COMMA] + spaces + after, 1 + |spaces|;
    var rest := v[|piece|..];
    assert rest == [COMMA] + spaces + after;
    assert rest[1..k] == spaces && rest[k..] == after;
    assert ([piece] + pieces)[1..] == pieces;
  }

  lemma LastPiece(piece: Bytes, spaces: Bytes)
    requires OnlySpaces(spaces)
    ensures Separated(piece, [piece]) && Separated(piece + [COMMA] + spaces, [piece])
  {
    assert (piece + [COMMA] + spaces)[|piece|..] == [COMMA] + spaces;
  }

  /** How a value is made up of its first piece, a comma, spaces and the rest. */
  lemma FirstGap(v: Bytes, n: nat) returns (spaces: Bytes)
    requires n < |v| && v[n] == COMMA
    ensures OnlySpaces(spaces) && v == v[..n] + [COMMA] + spaces + AfterSpaces(v[n + 1..])
  {
    var tail := v[n + 1..];
    SpacesSkipped(tail);
    hide AfterSpaces;
    spaces := tail[..|tail| - |AfterSpaces(tail)|];
    assert tail == spaces + AfterSpaces(tail);
    assert v == v[..n] + [v[n]] + tail;
  }

  lemma {:induction false} PiecesAreSeparated(v: Bytes)
    ensures Separated(v, Unfolded(v))
    decreases |v|
  {
    hide AfterSpaces, PieceLength, Separated, OnlySpaces;
    var n := PieceLength(v, false);
    if n == |v| {
      NoSpaceAtAll();
      LastPiece(v, []);
    } else {
      var after := AfterSpaces(v[n + 1..]);
      var spaces := FirstGap(v, n);
      if after != [] {
        PiecesAreSeparated(after);
        OnePieceMore(v[..n], spaces, after, Unfolded(after));
      } else {
        LastPiece(v[..n], spaces);
        assert v == v[..n] + [COMMA] + spaces;
      }
    }
  }

  lemma NoSpaceAtAll()
    ensures OnlySpaces([])
  {
  }

  // Unfolding inverts folding, exactly when the cookies can be told apart.

  /** The flag after scanning all of v, if nothing in it ends the piece. */
  predicate FlagAfter(v: Bytes, expires: bool) {
    if v == [] then expires else FlagAfter(v[1..], NowExpires(v, expires))
  }

  /** The scan runs through the cookie. */
  predicate Whole(cookie: Bytes) {
    PieceLength(cookie, false) == |cookie|
  }

  /** And it is not waiting for the comma of a date at its end. */
  predicate Closed(cookie: Bytes) {
    Whole(cookie) && !FlagAfter(cookie, false)
  }

  /** Every cookie but the last is closed, the last whole; no later one starts with a space, nor is the last empty. */
  predicate Foldable(cookies: seq<Bytes>) {
    && cookies != []
    && if |cookies| == 1 then Whole(cookies[0])
       else
         && Closed(cookies[0])
         && (if cookies[1] == [] then |cookies| > 2 else cookies[1][0] != ' ' as int)
         && Foldable(cookies[1..])
  }

  predicate EndsLookAhead(v: Bytes) {
    v == [] || v[0] == COMMA || v[0] == SEMICOLON
  }

  /** The look-ahead never goes past a comma or a semicolon. */
  lemma {:induction false} LookAheadIsLocal(v: Bytes, more: Bytes)
    requires EndsLookAhead(more)
    ensures IsExpires(v + more) == IsExpires(v)
  {
    if v == [] {
      assert v + more == more;
    } else if IsBlank(v[0]) {
      assert (v + more)[1..] == v[1..] + more;
      LookAheadIsLocal(v[1..], more);
    } else {
      assert AfterBlanks(v + more) == v + more;
      if |v| < 8 <= |v + more| {
        assert Keys.Fold(true, (v + more)[..8])[|v|] == more[0] != EXPIRES[|v|];
      } else if |v| >= 8 {
        assert (v + more)[..8] == v[..8];
      }
    }
  }

  /** Scanning a text followed by a comma, a semicolon or nothing. */
  lemma {:induction false} ScanInTwo(v: Bytes, more: Bytes, expires: bool)
    requires EndsLookAhead(more)
    ensures var n := PieceLength(v, expires);
            PieceLength(v + more, expires) == if n < |v| then n else |v| + PieceLength(more, FlagAfter(v, expires))
    ensures PieceLength(v, expires) == |v| ==> FlagAfter(v + more, expires) == FlagAfter(more, FlagAfter(v, expires))
  {
    hide IsExpires;
    if v == [] {
      assert v + more == more;
    } else if v[0] != COMMA || expires {
      assert (v + more)[1..] == v[1..] + more;
      LookAheadIsLocal(v[1..], more);
      assert NowExpires(v + more, expires) == NowExpires(v, expires);
      ScanInTwo(v[1..], more, NowExpires(v, expires));
    }
  }

  lemma FirstPiece(v: Bytes)
    ensures Unfolded(v)[0] == v[..PieceLength(v, false)]
  {
    hide PieceLength, AfterSpaces;
    assert v[..|v|] == v;
  }

  /** Where the first piece of some folded cookies ends: behind the first cookie exactly if that is closed. */
  lemma FirstCookie(first: Bytes, others: Bytes)
    ensures PieceLength(first + (FOLD + others), false) == |first| <==> Closed(first)
  {
    hide PieceLength, FlagAfter;
    ScanInTwo(first, FOLD + others, false);
    ScanComma(FOLD + others);
  }

  /** What the folding left behind the first cookie, without its leading spaces. */
  lemma OtherCookies(cookies: seq<Bytes>)
    requires |cookies| > 1
    ensures var others := Join(cookies[1..], FOLD);
            && AfterSpaces([SPACE] + others) == AfterSpaces(others)
            && (others == [] <==> |cookies| == 2 && cookies[1] == [])
            && (others != [] && others[0] == SPACE <==> cookies[1] != [] && cookies[1][0] == SPACE)
  {
    AfterFold(Join(cookies[1..], FOLD));
  }

  /** Unfolding when the first cookie is closed. */
  lemma UnfoldedOnce(first: Bytes, others: Bytes)
    requires Closed(first)
    ensures var rest := AfterSpaces([SPACE] + others);
            Unfolded(first + (FOLD + others)) == if rest == [] then [first] else [first] + Unfolded(rest)
  {
    hide PieceLength, FlagAfter, AfterSpaces, Closed;
    var v := first + (FOLD + others);
    FirstCookie(first, others);
    assert v[..|first|] == first && v[|first| + 1..] == [SPACE] + others;
  }

  /** Unfolding the ", "-join of some cookies gives them back if and only if they are foldable. */
  lemma {:induction false} UnfoldingInvertsFolding(cookies: seq<Bytes>)
    ensures Unfolded(Join(cookies, [',' as int, ' ' as int])) == cookies <==> Foldable(cookies)
    decreases |cookies|
  {
    hide PieceLength, FlagAfter, AfterSpaces;
    if |cookies| <= 1 {
      FirstPiece(Join(cookies, FOLD));
      if |cookies| == 1 { assert cookies[0][..|cookies[0]|] == cookies[0]; }
    } else {
      UnfoldingInvertsFolding(cookies[1..]);
      UnfoldingMore(cookies);
    }
  }

  /** Unfolding several cookies gives them back exactly if the first one is closed and the rest comes back. */
  lemma UnfoldingMore(cookies: seq<Bytes>)
    requires |cookies| > 1 && (Unfolded(Join(cookies[1..], FOLD)) == cookies[1..] <==> Foldable(cookies[1..]))
    ensures Unfolded(Join(cookies, FOLD)) == cookies <==> Foldable(cookies)
  {
    hide PieceLength, FlagAfter, AfterSpaces, Closed, Unfolded, Join;
    var first, others := cookies[0], Join(cookies[1..], FOLD);
    assert Join(cookies, FOLD) == first + (FOLD + others) by { JoinedAgain(cookies); }
    if Closed(first) {
      UnfoldedOnce(first, others);
      OtherCookies(cookies);
      UnfoldingRest(cookies, others);
    } else {
      NotClosedFirst(first, others);
    }
  }

  lemma JoinedAgain(cookies: seq<Bytes>)
    requires |cookies| > 1
    ensures Join(cookies, FOLD) == cookies[0] + (FOLD + Join(cookies[1..], FOLD))
  {
  }

  lemma NotClosedFirst(first: Bytes, others: Bytes)
    requires !Closed(first)
    ensures Unfolded(first + (FOLD + others))[0] != first
  {
    hide PieceLength, FlagAfter, Closed, Unfolded;
    FirstCookie(first, others);
    FirstPiece(first + (FOLD + others));
  }

  /** A piece that spaces were skipped before does not start with one. */
  lemma RestStartsWithout(others: Bytes)
    requires others != [] && others[0] == SPACE && AfterSpaces(others) != []
    ensures var piece := Unfolded(AfterSpaces(others))[0]; piece == [] || piece[0] != SPACE
  {
    hide PieceLength, AfterSpaces, Unfolded;
    SpacesSkipped(others);
    FirstPiece(AfterSpaces(others));
  }

  lemma UnfoldingRest(cookies: seq<Bytes>, others: Bytes)
    requires |cookies| > 1 && Closed(cookies[0])
    requires others == [] <==> |cookies| == 2 && cookies[1] == []
    requires others != [] && others[0] == SPACE <==> cookies[1] != [] && cookies[1][0] == SPACE
    requires Unfolded(others) == cookies[1..] <==> Foldable(cookies[1..])
    ensures var rest := AfterSpaces(others);
            (if rest == [] then [cookies[0]] else [cookies[0]] + Unfolded(rest)) == cookies <==> Foldable(cookies)
  {
    hide AfterSpaces, Closed, Unfolded;
    var rest := AfterSpaces(others);
    AfterFold(others);
    if rest != [] {
      var pieces := [cookies[0]] + Unfolded(rest);
      assert pieces[1..] == Unfolded(rest);
      assert cookies == [cookies[0]] + cookies[1..];
      if others[0] == SPACE { RestStartsWithout(others); }
    }
  }

  lemma ScanComma(v: Bytes)
    requires v != [] && v[0] == COMMA
    ensures PieceLength(v, false) == 0 && PieceLength(v, true) > 0
  {
  }

  lemma AfterFold(others: Bytes)
    ensures AfterSpaces([SPACE] + others) == AfterSpaces(others)
    ensures others == [] || others[0] != SPACE ==> AfterSpaces(others) == others
  {
    assert ([SPACE] + others)[1..] == others;
  }

  // Whole and closed cookies, told by their attributes.

  /** Attributes hold no comma, except for at most one in an Expires attribute; e says whether the first is one. */
  predicate DatesOnly(attributes: seq<Bytes>, e: bool)
    requires attributes != []
  {
    && Count(attributes[0], ',' as int) <= (if e then 1 else 0)
    && (|attributes| > 1 ==> DatesOnly(attributes[1..], IsExpires(attributes[1])))
  }

  /** The last attribute is an Expires attribute without a comma. */
  predicate DateAwaited(attributes: seq<Bytes>, e: bool)
    requires attributes != []
  {
    if |attributes| == 1 then e && Count(attributes[0], ',' as int) == 0
    else DateAwaited(attributes[1..], IsExpires(attributes[1]))
  }

  lemma {:induction false} ScanAttribute(v: Bytes, e: bool)
    requires SEMICOLON !in v
    ensures PieceLength(v, e) == |v| <==> Count(v, COMMA) <= if e then 1 else 0
    ensures PieceLength(v, e) == |v| ==> FlagAfter(v, e) == (e && Count(v, COMMA) == 0)
  {
    if v != [] {
      assert v[0] != SEMICOLON;
      if v[0] != COMMA || e { ScanAttribute(v[1..], e && v[0] != COMMA); }
    }
  }

  lemma {:induction false} ScanAttributes(attributes: seq<Bytes>, e: bool)
    requires attributes != [] && forall a :: a in attributes ==> SEMICOLON !in a
    ensures var v := Join(attributes, [SEMICOLON]);
            && (PieceLength(v, e) == |v| <==> DatesOnly(attributes, e))
            && (PieceLength(v, e) == |v| ==> FlagAfter(v, e) == DateAwaited(attributes, e))
  {
    hide PieceLength, FlagAfter, IsExpires;
    var first := attributes[0];
    ScanAttribute(first, e);
    if |attributes| > 1 {
      var v, others := Join(attributes, [SEMICOLON]), Join(attributes[1..], [SEMICOLON]);
      var flag := IsExpires(attributes[1]);
      ScanAttributes(attributes[1..], flag);
      assert v == first + ([SEMICOLON] + others);
      ScanInTwo(first, [SEMICOLON] + others, e);
      StartOfAttribute(attributes[1..]);
      ScanSemicolon(others, FlagAfter(first, e));
    }
  }

  lemma StartOfAttribute(attributes: seq<Bytes>)
    requires attributes != []
    ensures IsExpires(Join(attributes, [SEMICOLON])) == IsExpires(attributes[0])
  {
    hide IsExpires;
    if |attributes| > 1 {
      var others := Join(attributes[1..], [SEMICOLON]);
      assert Join(attributes, [SEMICOLON]) == attributes[0] + ([SEMICOLON] + others);
      LookAheadIsLocal(attributes[0], [SEMICOLON] + others);
    }
  }

  lemma ScanSemicolon(others: Bytes, e: bool)
    ensures PieceLength([SEMICOLON] + others, e) == 1 + PieceLength(others, IsExpires(others))
    ensures FlagAfter([SEMICOLON] + others, e) == FlagAfter(others, IsExpires(others))
  {
    hide IsExpires;
    assert ([SEMICOLON] + others)[1..] == others;
  }

  /** Whole and closed cookies, by the commas of their attributes; the name and value are no attribute. */
  lemma WholeByAttributes(cookie: Bytes)
    ensures var attributes := Split(cookie, ';' as int);
            && (Whole(cookie) <==> DatesOnly(attributes, false))
            && (Closed(cookie) <==> DatesOnly(attributes, false) && !DateAwaited(attributes, false))
  {
    hide PieceLength, FlagAfter, DatesOnly, DateAwaited;
    JoinOfSplit(cookie, SEMICOLON);
    ScanAttributes(Split(cookie, SEMICOLON), false);
  }

  /** No commas but exactly one in each Expires attribute. */
  ghost predicate OneCommaPerDate(cookie: Bytes) {
    var attributes := Split(cookie, ';' as int);
    forall i :: 0 <= i < |attributes| ==>
      Count(attributes[i], ',' as int) == if i > 0 && IsExpires(attributes[i]) then 1 else 0
  }

  lemma {:induction false} OneCommaIsEnough(attributes: seq<Bytes>, e: bool)
    requires attributes != []
    requires Count(attributes[0], COMMA) == if e then 1 else 0
    requires forall i :: 0 < i < |attributes| ==>
      Count(attributes[i], COMMA) == if IsExpires(attributes[i]) then 1 else 0
    ensures DatesOnly(attributes, e) && !DateAwaited(attributes, e)
  {
    hide IsExpires;
    if |attributes| > 1 { OneCommaIsEnough(attributes[1..], IsExpires(attributes[1])); }
  }

  lemma OneCommaPerDateCloses(cookie: Bytes)
    requires OneCommaPerDate(cookie)
    ensures Closed(cookie)
  {
    hide PieceLength, FlagAfter, DatesOnly, DateAwaited, IsExpires;
    OneCommaIsEnough(Split(cookie, SEMICOLON), false);
    WholeByAttributes(cookie);
  }

  /** Cookies as servers write them survive folding and unfolding. */
  lemma {:induction false} CookiesSurvive(cookies: seq<Bytes>)
    requires cookies != []
    requires forall i :: 0 <= i < |cookies| ==>
      cookies[i] != [] && cookies[i][0] != ' ' as int && OneCommaPerDate(cookies[i])
    ensures Foldable(cookies) && Unfolded(Join(cookies, [',' as int, ' ' as int])) == cookies
    decreases |cookies|
  {
    hide PieceLength, FlagAfter, OneCommaPerDate, Unfolded;
    OneCommaPerDateCloses(cookies[0]);
    if |cookies| > 1 { CookiesSurvive(cookies[1..]); }
    UnfoldingInvertsFolding(cookies);
  }
}
