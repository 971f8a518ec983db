/** Table keys: byte strings compared the way C strings are, optionally ignoring ASCII case (src/lws_table.c). */
module Keys {
  import opened Counting

  type Byte = b: int | 0 <= b < 256

  type Key = seq<Byte>

  /** Any hash function; the seed of the table's own is random. */
  type Hash = Key -> nat

  function ToLower(b: Byte): Byte {
    if 65 <= b <= 90 then b + 32 else b
  }

  /** Folding turns the capital letters of ASCII into the small ones and changes no other byte. */
  lemma FoldsLetters(b: Byte)
    ensures 'A' <= b as char <= 'Z' ==> ToLower(b) as char - 'a' == b as char - 'A' && 'a' <= ToLower(b) as char <= 'z'
    ensures !('A' <= b as char <= 'Z') ==> ToLower(b) == b
  {
  }

  function Fold(ci: bool, key: Key): (folded: Key)
    ensures |folded| == |key|
    ensures forall i :: 0 <= i < |key| ==> folded[i] == if ci then ToLower(key[i]) else key[i]
  {
    if ci then seq(|key|, i requires 0 <= i < |key| => ToLower(key[i])) else key
  }

  /** Byte-wise comparison of two strings of one length that, like strncmp, stops at a NUL. */
  predicate EqualUpToNul(a: Key, b: Key)
    requires |a| == |b|
  {
    a == [] || (a[0] == b[0] && (a[0] == 0 || EqualUpToNul(a[1..], b[1..])))
  }

  /** The key test of a lookup, apart from the stored hash. */
  predicate SameText(ci: bool, a: Key, b: Key) {
    |a| == |b| && EqualUpToNul(Fold(ci, a), Fold(ci, b))
  }

  function UpToNul(s: Key): Key {
    if s == [] || s[0] == 0 then [] else [s[0]] + UpToNul(s[1..])
  }

  /** What a table can tell apart about keys. */
  datatype Id = Id(hash: nat, len: nat, text: Key)

  function IdOf(hashOf: Hash, ci: bool, key: Key): Id {
    Id(hashOf(Fold(ci, key)), |key|, UpToNul(Fold(ci, key)))
  }

  predicate NulFree(key: Key) {
    forall i :: 0 <= i < |key| ==> key[i] != 0
  }

  lemma {:induction false} EqualIsPrefixEqual(a: Key, b: Key)
    requires |a| == |b|
    ensures EqualUpToNul(a, b) <==> UpToNul(a) == UpToNul(b)
  {
    if a != [] {
      EqualIsPrefixEqual(a[1..], b[1..]);
      if UpToNul(a) == UpToNul(b) && a[0] != 0 {
        assert UpToNul(a)[0] == UpToNul(b)[0];
        assert UpToNul(a)[1..] == UpToNul(b)[1..];
      }
    }
  }

  lemma {:induction false} NulFreeText(s: Key)
    requires NulFree(s)
    ensures UpToNul(s) == s
  {
    if s != [] { NulFreeText(s[1..]); }
  }

  /** The lookup test (hash, length, text) is equality of identities, hence an equivalence. */
  lemma MatchIsIdentity(hashOf: Hash, ci: bool, a: Key, b: Key)
    ensures IdOf(hashOf, ci, a) == IdOf(hashOf, ci, b)
       <==> hashOf(Fold(ci, a)) == hashOf(Fold(ci, b)) && SameText(ci, a, b)
  {
    if |a| == |b| { EqualIsPrefixEqual(Fold(ci, a), Fold(ci, b)); }
  }

  /** NUL-free keys are told apart exactly by their case-folded bytes, whatever the hash. */
  lemma NulFreeIdentity(hashOf: Hash, ci: bool, a: Key, b: Key)
    requires NulFree(a) && NulFree(b)
    ensures IdOf(hashOf, ci, a) == IdOf(hashOf, ci, b) <==> Fold(ci, a) == Fold(ci, b)
  {
    NulFreeText(Fold(ci, a));
    NulFreeText(Fold(ci, b));
  }

  /** The low digits of a number to the base 64, as bytes that no folding changes. */
  function Digits(n: nat, len: nat): (key: Key)
    ensures |key| == len && forall i :: 0 <= i < len ==> key[i] >= 128
  {
    if len == 0 then [] else [128 + n % 64] + Digits(n / 64, len - 1)
  }

  function Power(e: nat): nat {
    if e == 0 then 1 else 64 * Power(e - 1)
  }

  lemma {:induction false} DigitsDiffer(a: nat, b: nat, len: nat)
    requires a < b < Power(len)
    ensures Digits(a, len) != Digits(b, len)
  {
    var s, t := Digits(a, len), Digits(b, len);
    if a % 64 == b % 64 {
      DigitsDiffer(a / 64, b / 64, len - 1);
      assert s[1..] == Digits(a / 64, len - 1) && t[1..] == Digits(b / 64, len - 1);
    } else {
      assert s[0] != t[0];
    }
  }

  /**
    * A NUL hides what follows it: whatever the hash, there are two different keys that are one to the table. It takes
    * two with the same hash, since the hash covers the hidden bytes; there are such keys of 12 bytes because a hash is
    * a 64-bit word.
    */
  lemma NulHidesTheRest(hashOf: Hash, ci: bool)
    requires forall key :: hashOf(key) < 0x1_0000_0000_0000_0000
    ensures exists a: Key, b: Key :: a != b && a != [] && a[0] == 0 && IdOf(hashOf, ci, a) == IdOf(hashOf, ci, b)
  {
    var hashAt := (n: nat) => hashOf([0] + Digits(n, 11));
    forall n: nat ensures hashAt(n) < 0x1_0000_0000_0000_0000 {
      assert hashAt(n) == hashOf([0] + Digits(n, 11));
    }
    assert Power(11) == 4 * 0x1_0000_0000_0000_0000;
    var i, j := Pigeonhole(hashAt, 0x1_0000_0000_0000_0001, 0x1_0000_0000_0000_0000);
    var a: Key, b: Key := [0] + Digits(i, 11), [0] + Digits(j, 11);
    DigitsDiffer(i, j, 11);
    assert a[1..] == Digits(i, 11) && b[1..] == Digits(j, 11);
    assert Fold(ci, a) == a && Fold(ci, b) == b;
    assert a != b && a != [] && a[0] == 0 && IdOf(hashOf, ci, a) == IdOf(hashOf, ci, b);
  }
}
