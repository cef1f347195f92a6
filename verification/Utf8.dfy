/** UTF-8 byte sequences (RFC 3629, sections 3 and 4) and `truncate_utf8` of src/events.rs. */
module Utf8 {

  type byte = x: int | 0 <= x < 0x100

  predicate IsContinuation(b: byte) { 0x80 <= b <= 0xBF }

  predicate Continues(s: seq<byte>, i: nat) { i < |s| && IsContinuation(s[i]) }

  /** Length of the character that starts `s`, or 0 when `s` does not start with a well-formed one. */
  function CharLen(s: seq<byte>): (n: nat)
    ensures n <= |s| && n <= 4
    ensures forall i :: 1 <= i < n ==> IsContinuation(s[i])
    ensures n > 0 ==> !IsContinuation(s[0])
  {
    if s == [] then 0
    else if s[0] < 0x80 then 1
    else if 0xC2 <= s[0] <= 0xDF then if Continues(s, 1) then 2 else 0
    else if 0xE0 <= s[0] <= 0xEF then
      if Continues(s, 1) && Continues(s, 2) && (s[0] == 0xE0 ==> 0xA0 <= s[1]) && (s[0] == 0xED ==> s[1] <= 0x9F)
      then 3 else 0
    else if 0xF0 <= s[0] <= 0xF4 then
      if Continues(s, 1) && Continues(s, 2) && Continues(s, 3) && (s[0] == 0xF0 ==> 0x90 <= s[1])
         && (s[0] == 0xF4 ==> s[1] <= 0x8F)
      then 4 else 0
    else 0
  }

  predicate Valid(s: seq<byte>)
    decreases |s|
  {
    s == [] || (CharLen(s) > 0 && Valid(s[CharLen(s)..]))
  }

  predicate IsCharBoundary(s: seq<byte>, i: nat) {
    i == 0 || i == |s| || (i < |s| && !IsContinuation(s[i]))
  }

  lemma CharLenOfPrefix(s: seq<byte>, i: nat)
    requires 0 < CharLen(s) <= i <= |s|
    ensures CharLen(s[..i]) == CharLen(s)
  {
  }

  /** Cutting valid text at a character boundary leaves valid text on both sides. */
  lemma {:induction false} BoundarySplitsValid(s: seq<byte>, i: nat)
    requires Valid(s) && i <= |s| && IsCharBoundary(s, i)
    ensures Valid(s[..i]) && Valid(s[i..])
    decreases |s|
  {
    var n := CharLen(s);
    if i == 0 {
      assert s[..0] == [] && s[0..] == s;
    } else {
      assert i >= n;
      BoundarySplitsValid(s[n..], i - n);
      assert s[..i][n..] == s[n..][..i - n];
      assert s[n..][i - n..] == s[i..];
      CharLenOfPrefix(s, i);
    }
  }

  lemma {:induction false} ValidConcat(a: seq<byte>, b: seq<byte>)
    requires Valid(a) && Valid(b)
    ensures Valid(a + b)
    decreases |a|
  {
    if a == [] {
      assert a + b == b;
    } else {
      var n := CharLen(a);
      assert CharLen(a + b) == n && (a + b)[n..] == a[n..] + b;
      ValidConcat(a[n..], b);
    }
  }

  /** Valid text has a boundary in every window of four positions. */
  lemma {:induction false} BoundaryNearby(s: seq<byte>, i: nat)
    requires Valid(s) && i <= |s|
    ensures exists e: nat :: e <= i < e + 4 && IsCharBoundary(s, e)
    decreases |s|
  {
    if s == [] || i < CharLen(s) {
      assert IsCharBoundary(s, 0);
    } else {
      var n := CharLen(s);
      BoundaryNearby(s[n..], i - n);
      var e: nat :| e <= i - n < e + 4 && IsCharBoundary(s[n..], e);
      if e == 0 && n < |s| {
        assert s[n..] != [] && CharLen(s[n..]) > 0;
        assert s[n..][0] == s[n];
      } else if e < |s| - n {
        assert s[n..][e] == s[n + e];
      }
      assert IsCharBoundary(s, n + e);
    }
  }

  // ---------------------------------------------------------------- the characters behind the bytes

  /** A code point that is no surrogate half. */
  predicate IsScalar(cp: int) { 0 <= cp <= 0xD7FF || 0xE000 <= cp <= 0x10FFFF }

  /** The encoding of section 3 of RFC 3629. */
  function EncodeChar(cp: int): seq<byte>
    requires IsScalar(cp)
  {
    if cp < 0x80 then [cp]
    else if cp < 0x800 then [0xC0 + cp / 0x40, 0x80 + cp % 0x40]
    else if cp < 0x10000 then [0xE0 + cp / 0x1000, 0x80 + cp / 0x40 % 0x40, 0x80 + cp % 0x40]
    else [0xF0 + cp / 0x40000, 0x80 + cp / 0x1000 % 0x40, 0x80 + cp / 0x40 % 0x40, 0x80 + cp % 0x40]
  }

  lemma EncodingIsRead(cp: int, rest: seq<byte>)
    requires IsScalar(cp)
    ensures CharLen(EncodeChar(cp) + rest) == |EncodeChar(cp)|
  {
  }

  /** The digits of a number in base 64. */
  lemma Digits(a: nat, b: nat, c: nat, d: nat)
    requires b < 0x40 && c < 0x40 && d < 0x40
    ensures var n := 0x40000 * a + 0x1000 * b + 0x40 * c + d;
      n / 0x40000 == a && n / 0x1000 == 0x40 * a + b && n / 0x1000 % 0x40 == b && n / 0x40 % 0x40 == c && n % 0x40 == d
  {
    var n := 0x40000 * a + 0x1000 * b + 0x40 * c + d;
    Quotients(a, 0x1000 * b + 0x40 * c + d);
    Quotients(0x40 * a + b, 0x40 * c + d);
    LowDigits(a, b);
    LowDigits(0x1000 * a + 0x40 * b + c, d);
    LowDigits(0x40 * a + b, c);
    assert n == 0x40000 * a + (0x1000 * b + 0x40 * c + d) && n == 0x1000 * (0x40 * a + b) + (0x40 * c + d);
    assert n == 0x40 * (0x1000 * a + 0x40 * b + c) + d;
  }

  lemma Quotients(q: nat, r: nat)
    ensures r < 0x40000 ==> (0x40000 * q + r) / 0x40000 == q
    ensures r < 0x1000 ==> (0x1000 * q + r) / 0x1000 == q
  {
  }

  lemma LowDigits(b: nat, c: nat)
    requires c < 0x40
    ensures (0x40 * b + c) / 0x40 == b && (0x40 * b + c) % 0x40 == c
  {
  }

  lemma ShortCharIsEncoded(s: seq<byte>) returns (cp: int)
    requires 0 < CharLen(s) <= 2
    ensures IsScalar(cp) && EncodeChar(cp) == s[..CharLen(s)]
  {
    if CharLen(s) == 1 {
      cp := s[0];
    } else {
      var a: int, b: int := s[0] as int - 0xC0, s[1] as int - 0x80;
      LowDigits(a, b);
      cp := 0x40 * a + b;
    }
  }

  lemma MiddleCharIsEncoded(s: seq<byte>) returns (cp: int)
    requires CharLen(s) == 3
    ensures IsScalar(cp) && EncodeChar(cp) == s[..3]
  {
    var a: int, b: int, c: int := s[0] as int - 0xE0, s[1] as int - 0x80, s[2] as int - 0x80;
    Digits(0, a, b, c);
    cp := 0x1000 * a + 0x40 * b + c;
  }

  lemma LongCharIsEncoded(s: seq<byte>) returns (cp: int)
    requires CharLen(s) == 4
    ensures IsScalar(cp) && EncodeChar(cp) == s[..4]
  {
    var a: int, b: int, c: int, d: int := s[0] as int - 0xF0, s[1] as int - 0x80, s[2] as int - 0x80, s[3] as int - 0x80;
    Digits(a, b, c, d);
    cp := 0x40000 * a + 0x1000 * b + 0x40 * c + d;
  }

  /** What is accepted as a character is the encoding of one. */
  lemma CharIsEncoded(s: seq<byte>) returns (cp: int)
    requires CharLen(s) > 0
    ensures IsScalar(cp) && EncodeChar(cp) == s[..CharLen(s)]
  {
    if CharLen(s) <= 2 {
      cp := ShortCharIsEncoded(s);
    } else if CharLen(s) == 3 {
      cp := MiddleCharIsEncoded(s);
    } else {
      cp := LongCharIsEncoded(s);
    }
  }

  function EncodeText(cps: seq<int>): seq<byte>
    requires forall i :: 0 <= i < |cps| ==> IsScalar(cps[i])
  {
    if cps == [] then [] else EncodeChar(cps[0]) + EncodeText(cps[1..])
  }

  lemma {:induction false} EncodedIsValid(cps: seq<int>)
    requires forall i :: 0 <= i < |cps| ==> IsScalar(cps[i])
    ensures Valid(EncodeText(cps))
    decreases |cps|
  {
    if cps != [] {
      EncodedIsValid(cps[1..]);
      EncodingIsRead(cps[0], EncodeText(cps[1..]));
      assert (EncodeChar(cps[0]) + EncodeText(cps[1..]))[|EncodeChar(cps[0])|..] == EncodeText(cps[1..]);
    }
  }

  lemma OneMoreChar(first: int, more: seq<int>)
    requires IsScalar(first) && forall i :: 0 <= i < |more| ==> IsScalar(more[i])
    ensures forall i :: 0 <= i < |[first] + more| ==> IsScalar(([first] + more)[i])
    ensures EncodeText([first] + more) == EncodeChar(first) + EncodeText(more)
  {
    assert ([first] + more)[1..] == more;
  }

  /** Valid text is exactly what encodes some characters. */
  lemma {:induction false} ValidIsEncoded(s: seq<byte>) returns (cps: seq<int>)
    requires Valid(s)
    ensures forall i :: 0 <= i < |cps| ==> IsScalar(cps[i])
    ensures EncodeText(cps) == s
    decreases |s|
  {
    if s == [] {
      cps := [];
    } else {
      var n := CharLen(s);
      var first := CharIsEncoded(s);
      var more := ValidIsEncoded(s[n..]);
      cps := [first] + more;
      OneMoreChar(first, more);
      assert s == s[..n] + s[n..];
    }
  }

  const ELLIPSIS: seq<byte> := [0xE2, 0x80, 0xA6]

  /** `end` is the last character boundary at or below `limit`. */
  predicate LastBoundary(s: seq<byte>, limit: nat, end: nat) {
    end <= limit <= |s| && IsCharBoundary(s, end) && forall e :: end < e <= limit ==> !IsCharBoundary(s, e)
  }

  method BoundaryAtOrBelow(value: seq<byte>, limit: nat) returns (end: nat)
    requires limit <= |value|
    ensures LastBoundary(value, limit, end)
    ensures Valid(value) ==> end + 4 > limit
  {
    end := limit;
    while end > 0 && !IsCharBoundary(value, end)
      invariant end <= limit
      invariant forall e :: end < e <= limit ==> !IsCharBoundary(value, e)
    {
      end := end - 1;
    }
    if Valid(value) { BoundaryNearby(value, limit); }
  }

  /** Within `max` bytes, still valid text, and cut no earlier than a boundary forces: a cut loses fewer
      than four bytes beside the room of the ellipsis. */
  method TruncateUtf8(value: seq<byte>, max: nat) returns (r: seq<byte>)
    ensures |r| <= max
    ensures |value| <= max ==> r == value
    ensures |value| > max ==>
              var room := if max < |ELLIPSIS| then max else max - |ELLIPSIS|;
              var mark := if max < |ELLIPSIS| then [] else ELLIPSIS;
              exists end: nat :: LastBoundary(value, room, end) && r == value[..end] + mark
    ensures Valid(value) ==> Valid(r) && (|value| > max ==> |r| + 4 > max)
  {
    if |value| <= max { return value; }
    if max < |ELLIPSIS| {
      var end := BoundaryAtOrBelow(value, max);
      r := value[..end];
      assert r == value[..end] + [];
      if Valid(value) { BoundarySplitsValid(value, end); }
    } else {
      var end := BoundaryAtOrBelow(value, max - |ELLIPSIS|);
      r := value[..end] + ELLIPSIS;
      if Valid(value) {
        BoundarySplitsValid(value, end);
        assert CharLen(ELLIPSIS) == 3 && ELLIPSIS[3..] == [];
        ValidConcat(value[..end], ELLIPSIS);
      }
    }
  }
}
