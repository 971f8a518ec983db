/**
  * Form decoding: the unescaping loop, whose cursor steps back, and the argument parser built on it
  * (src/lws_lib.c). The byte-wise meaning is that of the WHATWG URL Standard, sections 1.3, 5.1 and 5.2.
  */
module Decoding {
  import opened ByteStrings

  const PERCENT: Byte := 37
  const AMPERSAND: Byte := 38
  const PLUS: Byte := 43
  const EQUALS: Byte := 61

  predicate IsHex(b: Byte) {
    48 <= b <= 57 || 97 <= b <= 102 || 65 <= b <= 70
  }

  function HexValue(b: Byte): (v: nat)
    requires IsHex(b)
    ensures v < 16
  {
    if b <= 57 then b - 48 else if b >= 97 then b - 97 + 10 else b - 65 + 10
  }

  /** A hex digit, in capital or small letters. */
  function HexDigit(v: nat, capital: bool): (b: Byte)
    requires v < 16
  {
    if v < 10 then '0' as int + v else (if capital then 'A' else 'a') as int + v - 10
  }

  /** The bytes taken for hex digits are the digits and the letters up to f, and each has its value. */
  lemma HexDigits(b: Byte)
    ensures IsHex(b) <==> exists v, capital :: 0 <= v < 16 && b == HexDigit(v, capital)
    ensures forall v, capital :: 0 <= v < 16 && b == HexDigit(v, capital) ==> HexValue(b) == v
  {
    if IsHex(b) { assert b == HexDigit(HexValue(b), b < 97); }
  }

  /** Section 1.3: percent-decode. A percent sign without two hex digits stands for itself. */
  function PercentDecode(s: Bytes): Bytes {
    if s == [] then []
    else if s[0] == '%' as int && |s| >= 3 && IsHex(s[1]) && IsHex(s[2])
    then [HexValue(s[1]) * 16 + HexValue(s[2])] + PercentDecode(s[3..])
    else [s[0]] + PercentDecode(s[1..])
  }

  function PlusToSpace(s: Bytes): (t: Bytes)
    ensures |t| == |s|
    ensures forall i :: 0 <= i < |s| ==> t[i] == if s[i] == '+' as int then ' ' as int else s[i]
  {
    if s == [] then [] else [if s[0] == '+' as int then ' ' as int else s[0]] + PlusToSpace(s[1..])
  }

  /** Section 5.1, steps 3.4 and 3.5: first every plus becomes a space, then percent-decode. */
  function FormDecode(s: Bytes): Bytes {
    PercentDecode(PlusToSpace(s))
  }

  lemma PlusOfRest(s: Bytes, n: nat)
    requires n <= |s|
    ensures PlusToSpace(s)[n..] == PlusToSpace(s[n..])
  {
  }

  /** How the loop consumes the input: the two passes of the standard taken together. */
  lemma DecodeOneStep(s: Bytes)
    requires s != []
    ensures FormDecode(s) ==
            if s[0] == PERCENT && |s| >= 3 && IsHex(s[1]) && IsHex(s[2])
            then [HexValue(s[1]) * 16 + HexValue(s[2])] + FormDecode(s[3..])
            else [if s[0] == PLUS then SPACE else s[0]] + FormDecode(s[1..])
  {
    PlusOfRest(s, 1);
    if |s| >= 3 { PlusOfRest(s, 3); }
  }

  /** The three states of the unescaping loop: no escape, after a percent sign, after its first hex digit. */
  datatype State = Plain | FirstDigit | SecondDigit {
    function Pending(): nat {
      match this case Plain => 0 case FirstDigit => 1 case SecondDigit => 2
    }
  }

  /** Between two rounds the bytes written, followed by the decoding of what is pending, are the result. */
  ghost predicate Underway(src: Bytes, s: nat, state: State, c: nat, written: Bytes) {
    var p := s - state.Pending();
    && 0 <= p <= s <= |src|
    && |written| <= p
    && written + FormDecode(src[p..]) == FormDecode(src)
    && (state != Plain ==> src[p] == PERCENT)
    && (state == SecondDigit ==> IsHex(src[p + 1]) && c == HexValue(src[p + 1]) * 16)
  }

  lemma Starting(src: Bytes)
    ensures Underway(src, 0, Plain, 0, [])
  {
    assert src[0..] == src;
  }

  /** A percent sign with two hex digits behind it. */
  predicate EscapeAt(src: Bytes, p: nat) {
    p + 2 < |src| && src[p] == PERCENT && IsHex(src[p + 1]) && IsHex(src[p + 2])
  }

  lemma DecodeAt(src: Bytes, p: nat)
    requires p < |src|
    ensures EscapeAt(src, p) ==>
      FormDecode(src[p..]) == [HexValue(src[p + 1]) * 16 + HexValue(src[p + 2])] + FormDecode(src[p + 3..])
    ensures !EscapeAt(src, p) ==>
      FormDecode(src[p..]) == [if src[p] == PLUS then SPACE else src[p]] + FormDecode(src[p + 1..])
  {
    hide FormDecode;
    var rest := src[p..];
    DecodeOneStep(rest);
    assert rest[1..] == src[p + 1..];
    if p + 2 < |src| { assert rest[3..] == src[p + 3..]; }
  }

  /** A text without a plus or a whole escape stands for itself, stray percent signs included. */
  lemma {:induction false} PlainText(s: Bytes)
    requires forall p :: 0 <= p < |s| ==> s[p] != '+' as int && !EscapeAt(s, p)
    ensures FormDecode(s) == s
  {
    hide FormDecode;
    if s == [] {
      NothingToDecode();
    } else {
      assert s[0..] == s;
      DecodeAt(s, 0);
      forall p | 0 <= p < |s| - 1 ensures !EscapeAt(s[1..], p) { assert !EscapeAt(s, p + 1); }
      PlainText(s[1..]);
    }
  }

  /** A byte written moves from what is pending to what is written. */
  lemma ByteWritten(src: Bytes, p: nat, q: nat, written: Bytes, b: Byte)
    requires p <= q <= |src| && written + FormDecode(src[p..]) == FormDecode(src)
    requires FormDecode(src[p..]) == [b] + FormDecode(src[q..])
    ensures (written + [b]) + FormDecode(src[q..]) == FormDecode(src)
  {
    hide FormDecode;
    var rest := FormDecode(src[q..]);
    assert written + ([b] + rest) == (written + [b]) + rest;
  }

  /** A round without an escape underway. */
  lemma PlainRound(src: Bytes, s: nat, c: nat, written: Bytes)
    requires Underway(src, s, Plain, c, written) && s < |src|
    ensures src[s] == PERCENT ==> Underway(src, s + 1, FirstDigit, c, written)
    ensures src[s] == PLUS ==> Underway(src, s + 1, Plain, c, written + [SPACE])
    ensures src[s] != PERCENT && src[s] != PLUS ==> Underway(src, s + 1, Plain, c, written + [src[s]])
  {
    hide FormDecode;
    DecodeAt(src, s);
    if src[s] != PERCENT { ByteWritten(src, s, s + 1, written, if src[s] == PLUS then SPACE else src[s]); }
  }

  /** A round behind a percent sign: without a digit the sign stands for itself and the byte is looked at again. */
  lemma FirstDigitRound(src: Bytes, s: nat, c: nat, written: Bytes)
    requires Underway(src, s, FirstDigit, c, written) && s < |src|
    ensures IsHex(src[s]) ==> Underway(src, s + 1, SecondDigit, HexValue(src[s]) * 16, written)
    ensures !IsHex(src[s]) ==> Underway(src, s, Plain, c, written + [PERCENT])
  {
    hide FormDecode;
    DecodeAt(src, s - 1);
    if !IsHex(src[s]) { ByteWritten(src, s - 1, s, written, PERCENT); }
  }

  /** A round behind the first digit: without a second one the sign stands for itself and the loop steps back. */
  lemma SecondDigitRound(src: Bytes, s: nat, c: nat, written: Bytes)
    requires Underway(src, s, SecondDigit, c, written) && s < |src|
    ensures IsHex(src[s]) ==> c + HexValue(src[s]) < 256
    ensures IsHex(src[s]) ==> Underway(src, s + 1, Plain, c, written + [c + HexValue(src[s])])
    ensures !IsHex(src[s]) ==> Underway(src, s - 1, Plain, c, written + [PERCENT])
  {
    hide FormDecode;
    var p := s - 2;
    DecodeAt(src, p);
    if IsHex(src[s]) {
      ByteWritten(src, p, s + 1, written, c + HexValue(src[s]));
    } else {
      ByteWritten(src, p, s - 1, written, PERCENT);
    }
  }

  /** An escape cut off by the end of the input stands for itself. */
  lemma Ending(src: Bytes, state: State, c: nat, written: Bytes)
    requires Underway(src, |src|, state, c, written)
    ensures state == Plain ==> FormDecode(src) == written
    ensures state == FirstDigit ==> FormDecode(src) == written + [PERCENT]
    ensures state == SecondDigit ==> FormDecode(src) == written + [PERCENT, src[|src| - 1]]
  {
    hide FormDecode;
    var n := |src|;
    assert src[n..] == [];
    NothingToDecode();
    if state == FirstDigit {
      DecodeAt(src, n - 1);
    } else if state == SecondDigit {
      DecodeAt(src, n - 2);
      DecodeAt(src, n - 1);
      assert FormDecode(src[n - 1..]) == [src[n - 1]];
    }
  }

  lemma NothingToDecode()
    ensures FormDecode([]) == []
  {
  }

  /** Writes one byte behind those written since position d0. */
  method Put(dst: array<Byte>, d0: nat, d: nat, b: Byte) returns (next: nat)
    requires d0 <= d < dst.Length
    modifies dst
    ensures next == d + 1
    ensures dst[d0..next] == old(dst[d0..d]) + [b]
    ensures forall i :: 0 <= i < dst.Length && i != d ==> dst[i] == old(dst[i])
  {
    dst[d] := b;
    next := d + 1;
  }

  /**
    * Decodes src into dst from position d0 on and returns the position after the last byte written;
    * no more bytes are written than read.
    */
  method UnescapeUrl(dst: array<Byte>, d0: nat, src: Bytes) returns (d: nat)
    requires d0 + |src| <= dst.Length
    modifies dst
    ensures d0 <= d <= d0 + |src|
    ensures dst[d0..d] == FormDecode(src)
    ensures forall i :: 0 <= i < d0 || d0 + |src| <= i < dst.Length ==> dst[i] == old(dst[i])
  {
    hide Underway, PercentDecode, PlusToSpace, FormDecode;
    var s: nat, state, c: nat := 0, Plain, 0;
    d := d0;
    Starting(src);
    assert dst[d0..d] == [];
    while s < |src|
      invariant state.Pending() <= s <= |src|
      invariant d0 <= d <= d0 + s - state.Pending()
      invariant Underway(src, s, state, c, dst[d0..d])
      invariant forall i :: 0 <= i < d0 || d0 + |src| <= i < dst.Length ==> dst[i] == old(dst[i])
      decreases |src| - (s - state.Pending()), 2 - state.Pending()
    {
      match state {
        case Plain =>
          PlainRound(src, s, c, dst[d0..d]);
          if src[s] == PLUS {
            d := Put(dst, d0, d, SPACE);
            s := s + 1;
          } else if src[s] == PERCENT {
            s, state := s + 1, FirstDigit;
          } else {
            d := Put(dst, d0, d, src[s]);
            s := s + 1;
          }
        case FirstDigit =>
          FirstDigitRound(src, s, c, dst[d0..d]);
          if IsHex(src[s]) {
            c, s, state := HexValue(src[s]) * 16, s + 1, SecondDigit;
          } else {
            d := Put(dst, d0, d, PERCENT);
            state := Plain;
          }
        case SecondDigit =>
          SecondDigitRound(src, s, c, dst[d0..d]);
          if IsHex(src[s]) {
            d := Put(dst, d0, d, c + HexValue(src[s]));
            s := s + 1;
          } else {
            d := Put(dst, d0, d, PERCENT);
            s := s - 1;
          }
          state := Plain;
      }
    }
    Ending(src, state, c, dst[d0..d]);
    if state == FirstDigit {
      d := Put(dst, d0, d, PERCENT);
    } else if state == SecondDigit {
      d := Put(dst, d0, d, PERCENT);
      d := Put(dst, d0, d, src[s - 1]);
    }
  }
}
