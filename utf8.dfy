/**
 The structural UTF-8 check of the Android JNI helper (`is_valid_utf8`): it
 walks a NUL-terminated byte string, classifies each lead byte by its bit
 pattern as the start of a 1-, 2-, 3- or 4-byte character (the table in
 section 3 of RFC 3629), and demands that many continuation bytes `10xxxxxx`
 after it. It looks at bit patterns only; the range restrictions of the
 UTF8-octets grammar in section 4 of RFC 3629 are not applied.
 */
module Utf8 {

  /** The length of the character a lead byte starts, by bit pattern:
      `0xxxxxxx` 1, `110xxxxx` 2, `1110xxxx` 3, `11110xxx` 4; 0 for a
      continuation byte `10xxxxxx` or a byte `11111xxx`. */
  function UnitLength(b: bv8): (n: nat)
    ensures n <= 4
    ensures n == 0 <==> (b & 0xC0 == 0x80 || b & 0xF8 == 0xF8)
  {
    if b & 0x80 == 0x00 then 1
    else if b & 0xE0 == 0xC0 then 2
    else if b & 0xF0 == 0xE0 then 3
    else if b & 0xF8 == 0xF0 then 4
    else 0
  }

  predicate IsContinuation(b: bv8) {
    b & 0xC0 == 0x80
  }

  /** The bytes split into units, each a lead byte followed by exactly the
      number of continuation bytes its pattern calls for. */
  predicate Splits(s: seq<bv8>): (b: bool)
    ensures b && s != [] ==> 0 < UnitLength(s[0]) <= |s|
    decreases |s|
  {
    s == [] ||
    (var n := UnitLength(s[0]);
     0 < n <= |s| && (forall k :: 1 <= k < n ==> IsContinuation(s[k])) && Splits(s[n..]))
  }

  /** The index of the terminator: the first NUL byte. */
  function FirstNul(s: seq<bv8>): (n: nat)
    requires 0 in s
    ensures n < |s| && s[n] == 0
    ensures forall k :: 0 <= k < n ==> s[k] != 0
  {
    if s[0] == 0 then 0 else FirstNul(s[1..]) + 1
  }

  /** `is_valid_utf8`: a null pointer is valid; otherwise the result says
      whether the bytes before the terminator split into units. `lastRead` is
      the greatest index the function reads (-1 for a null pointer); it never
      passes the terminator. */
  method IsValidUtf8(s: array?<bv8>) returns (ok: bool, ghost lastRead: int)
    requires s != null ==> 0 in s[..]
    ensures s == null ==> ok
    ensures s != null ==> ok == Splits(s[..FirstNul(s[..])])
    ensures s != null ==> 0 <= lastRead <= FirstNul(s[..])
  {
    lastRead := -1;
    if s == null {
      return true, lastRead;
    }
    ghost var nul := FirstNul(s[..]);
    ghost var text := s[..nul];
    var pos := 0;
    lastRead := pos;
    while s[pos] != 0
      invariant 0 <= pos <= nul
      invariant lastRead == pos
      invariant Splits(text) == Splits(s[pos..nul])
      decreases nul - pos
    {
      var num: int;
      if s[pos] & 0x80 == 0x00 {
        num := 1;
      } else if s[pos] & 0xE0 == 0xC0 {
        num := 2;
      } else if s[pos] & 0xF0 == 0xE0 {
        num := 3;
      } else if s[pos] & 0xF8 == 0xF0 {
        num := 4;
      } else {
        assert s[pos..nul][0] == s[pos];
        return false, lastRead;
      }
      ghost var unit := s[pos..nul];
      assert pos < nul && unit[0] == s[pos];
      assert UnitLength(unit[0]) == num;
      var tailOk;
      tailOk, pos, lastRead := ContinuationBytes(s, pos, num, nul);
      if !tailOk {
        return false, lastRead;
      }
      assert unit[num..] == s[pos..nul];
      SplitsStep(unit);
      lastRead := pos;
    }
    assert s[pos..nul] == [];
    return true, lastRead;
  }

  /** The inner loop of `is_valid_utf8`: the `num - 1` bytes after the lead
      byte at `start` must all be continuation bytes. It stops at the first
      byte that is not one, which at the latest is the terminator at `nul`;
      on success `pos` is the index after the unit. */
  method ContinuationBytes(s: array<bv8>, start: nat, num: nat, ghost nul: nat)
    returns (ok: bool, pos: nat, ghost lastRead: int)
    requires start < nul < s.Length && s[nul] == 0
    requires num == UnitLength(s[start]) && num > 0
    ensures ok ==> pos == start + num <= nul
    ensures ok ==> forall k :: 1 <= k < num ==> IsContinuation(s[start..nul][k])
    ensures !ok ==> !Splits(s[start..nul])
    ensures ok ==> lastRead == pos - 1
    ensures start <= lastRead <= nul
  {
    ghost var unit := s[start..nul];
    assert unit[0] == s[start];
    lastRead := start;
    pos := start + 1;
    var i := 1;
    while i < num
      invariant 1 <= i <= num
      invariant pos == start + i <= nul
      invariant lastRead == pos - 1
      invariant forall k :: 1 <= k < i ==> IsContinuation(unit[k])
    {
      lastRead := pos;
      if s[pos] & 0xC0 != 0x80 {
        if pos < nul {
          assert unit[i] == s[pos];
        }
        UnitBroken(unit, i);
        return false, pos, lastRead;
      }
      assert unit[i] == s[pos];
      pos := pos + 1;
      i := i + 1;
    }
    return true, pos, lastRead;
  }

  /** After a whole unit, the text is valid exactly when its rest is. */
  lemma SplitsStep(u: seq<bv8>)
    requires u != [] && 0 < UnitLength(u[0]) <= |u|
    requires forall k :: 1 <= k < UnitLength(u[0]) ==> IsContinuation(u[k])
    ensures Splits(u) == Splits(u[UnitLength(u[0])..])
  {
  }

  /** A unit whose i-th byte is missing or is not a continuation byte makes
      the text invalid. */
  lemma UnitBroken(u: seq<bv8>, i: nat)
    requires u != [] && 1 <= i < UnitLength(u[0])
    requires i < |u| ==> !IsContinuation(u[i])
    ensures !Splits(u)
  {
  }

  /** Text made of 7-bit bytes only is valid. */
  lemma {:induction false} AsciiSplits(s: seq<bv8>)
    requires forall k :: 0 <= k < |s| ==> s[k] < 0x80
    ensures Splits(s)
    decreases |s|
  {
    if s != [] {
      assert s[0] & 0x80 == 0x00;
      AsciiSplits(s[1..]);
    }
  }

  /** Two valid texts joined are valid. */
  lemma {:induction false} SplitsAppend(s: seq<bv8>, t: seq<bv8>)
    requires Splits(s) && Splits(t)
    ensures Splits(s + t)
    decreases |s|
  {
    if s == [] {
      assert s + t == t;
    } else {
      var n := UnitLength(s[0]);
      SplitsAppend(s[n..], t);
      UnitBefore(s, t, n);
    }
  }

  /** A unit at the head of `s`, followed by a valid text, is still a unit
      at the head of `s + t`. */
  lemma UnitBefore(s: seq<bv8>, t: seq<bv8>, n: nat)
    requires s != [] && n == UnitLength(s[0]) && 0 < n <= |s|
    requires forall k :: 1 <= k < n ==> IsContinuation(s[k])
    requires Splits(s[n..] + t)
    ensures Splits(s + t)
  {
    assert (s + t)[n..] == s[n..] + t;
    assert forall k :: 1 <= k < n ==> (s + t)[k] == s[k];
  }

  /** The split is unique, since a lead byte fixes its unit's length: after
      a valid prefix, the rest of a valid text is valid on its own. */
  lemma {:induction false} SplitsCancel(s: seq<bv8>, t: seq<bv8>)
    requires Splits(s) && Splits(s + t)
    ensures Splits(t)
    decreases |s|
  {
    if s == [] {
      assert s + t == t;
    } else {
      var n := UnitLength(s[0]);
      assert 0 < n <= |s|;
      assert (s + t)[0] == s[0];
      assert (s + t)[n..] == s[n..] + t;
      SplitsCancel(s[n..], t);
    }
  }

  /** A byte `10xxxxxx` or `11111xxx` where a character should start makes
      the text invalid, whatever valid units come before it. */
  lemma BadLeadRejected(s: seq<bv8>, t: seq<bv8>)
    requires Splits(s)
    requires t != [] && (IsContinuation(t[0]) || t[0] & 0xF8 == 0xF8)
    ensures !Splits(s + t)
  {
    if Splits(s + t) {
      SplitsCancel(s, t);
    }
  }

  /** A character cut short by the end of the text (where the terminator
      stands) makes the text invalid. */
  lemma TruncatedRejected(s: seq<bv8>, t: seq<bv8>)
    requires Splits(s)
    requires t != [] && |t| < UnitLength(t[0])
    ensures !Splits(s + t)
  {
    if Splits(s + t) {
      SplitsCancel(s, t);
    }
  }

  /** In a valid text a lead byte of length n is followed by exactly n - 1
      continuation bytes: the byte after them, if any, is not one. */
  lemma UnitExact(s: seq<bv8>)
    requires Splits(s) && s != []
    ensures var n := UnitLength(s[0]);
      0 < n <= |s| && (forall k :: 1 <= k < n ==> IsContinuation(s[k])) &&
      (n < |s| ==> !IsContinuation(s[n]))
  {
  }

  // ---------------------------------------------------------------------------
  // The UTF8-octets grammar of section 4 of RFC 3629, for comparison
  // ---------------------------------------------------------------------------

  predicate IsTail(b: bv8) {
    0x80 <= b <= 0xBF
  }

  /** The length of the UTF8-char at the head of `s` under the grammar of
      section 4 of RFC 3629, or 0 when none starts there. */
  function Rfc3629CharLength(s: seq<bv8>): nat
    requires s != []
  {
    var b := s[0];
    if b <= 0x7F then 1
    else if 0xC2 <= b <= 0xDF then
      (if |s| >= 2 && IsTail(s[1]) then 2 else 0)
    else if b == 0xE0 then
      (if |s| >= 3 && 0xA0 <= s[1] <= 0xBF && IsTail(s[2]) then 3 else 0)
    else if (0xE1 <= b <= 0xEC) || (0xEE <= b <= 0xEF) then
      (if |s| >= 3 && IsTail(s[1]) && IsTail(s[2]) then 3 else 0)
    else if b == 0xED then
      (if |s| >= 3 && 0x80 <= s[1] <= 0x9F && IsTail(s[2]) then 3 else 0)
    else if b == 0xF0 then
      (if |s| >= 4 && 0x90 <= s[1] <= 0xBF && IsTail(s[2]) && IsTail(s[3]) then 4 else 0)
    else if 0xF1 <= b <= 0xF3 then
      (if |s| >= 4 && IsTail(s[1]) && IsTail(s[2]) && IsTail(s[3]) then 4 else 0)
    else if b == 0xF4 then
      (if |s| >= 4 && 0x80 <= s[1] <= 0x8F && IsTail(s[2]) && IsTail(s[3]) then 4 else 0)
    else 0
  }

  /** UTF8-octets = *( UTF8-char ) */
  predicate Rfc3629Octets(s: seq<bv8>)
    decreases |s|
  {
    s == [] || (var n := Rfc3629CharLength(s); n > 0 && Rfc3629Octets(s[n..]))
  }

  /** Every text the grammar of RFC 3629 accepts passes the bit-pattern check. */
  lemma {:induction false} Rfc3629ImpliesSplits(s: seq<bv8>)
    requires Rfc3629Octets(s)
    ensures Splits(s)
    decreases |s|
  {
    if s != [] {
      var n := Rfc3629CharLength(s);
      assert UnitLength(s[0]) == n;
      assert forall k :: 1 <= k < n ==> IsTail(s[k]);
      Rfc3629ImpliesSplits(s[n..]);
    }
  }

  /** The converse fails: an overlong encoding, a UTF-16 surrogate and a code
      point beyond U+10FFFF pass the bit-pattern check but not the grammar. */
  lemma Rfc3629StricterThanSplits()
    ensures Splits([0xC0, 0x80]) && !Rfc3629Octets([0xC0, 0x80])
    ensures Splits([0xED, 0xA0, 0x80]) && !Rfc3629Octets([0xED, 0xA0, 0x80])
    ensures Splits([0xF5, 0x80, 0x80, 0x80]) && !Rfc3629Octets([0xF5, 0x80, 0x80, 0x80])
  {
    var overlong: seq<bv8> := [0xC0, 0x80];
    var surrogate: seq<bv8> := [0xED, 0xA0, 0x80];
    var beyond: seq<bv8> := [0xF5, 0x80, 0x80, 0x80];
    assert overlong[2..] == surrogate[3..] == beyond[4..] == [];
    assert Rfc3629CharLength(overlong) == Rfc3629CharLength(surrogate) == Rfc3629CharLength(beyond) == 0;
  }
}
