/** UTF-8 as section 4 of RFC 3629 defines it, and its self-synchronization (section 3). */
module Utf8 {
  newtype byte = x: int | 0 <= x < 256

  const LF: byte := 10
  const CR: byte := 13

  /** U+FFFD, written for what is no scalar. */
  const REPLACEMENT: seq<byte> := [0xEF, 0xBF, 0xBD]

  predicate IsCont(x: byte) { 0x80 <= x <= 0xBF }

  /** The length of the encoded scalar at the front of `b`, or 0 when there is none. */
  function ScalarLen(b: seq<byte>): (n: nat)
    ensures n <= 4 && n <= |b|
  {
    if b == [] then 0
    else if b[0] <= 0x7F then 1
    else if 0xC2 <= b[0] <= 0xDF then
      if |b| >= 2 && IsCont(b[1]) then 2 else 0
    else if 0xE0 <= b[0] <= 0xEF then
      if |b| >= 3 && SecondOk(b[0], b[1]) && IsCont(b[2]) then 3 else 0
    else if 0xF0 <= b[0] <= 0xF4 then
      if |b| >= 4 && SecondOk(b[0], b[1]) && IsCont(b[2]) && IsCont(b[3]) then 4 else 0
    else 0
  }

  /** The second byte excludes overlong forms, surrogates and values past U+10FFFF. */
  predicate SecondOk(lead: byte, x: byte) {
    && IsCont(x)
    && (lead == 0xE0 ==> x >= 0xA0)
    && (lead == 0xED ==> x <= 0x9F)
    && (lead == 0xF0 ==> x >= 0x90)
    && (lead == 0xF4 ==> x <= 0x8F)
  }

  predicate Valid(b: seq<byte>)
    decreases |b|
  {
    b == [] || (ScalarLen(b) > 0 && Valid(b[ScalarLen(b)..]))
  }

  /** A character boundary: the end, or a byte that starts a scalar. */
  predicate IsBoundary(b: seq<byte>, i: int) {
    i == |b| || (0 <= i < |b| && !IsCont(b[i]))
  }

  lemma ScalarLenPrefix(b: seq<byte>, c: seq<byte>)
    requires b <= c && ScalarLen(b) > 0
    ensures ScalarLen(c) == ScalarLen(b)
  {
  }

  /** A scalar is found in the front part alone when what follows cannot continue one. */
  lemma ScalarLenSplit(a: seq<byte>, b: seq<byte>)
    requires a != [] && (b == [] || !IsCont(b[0]))
    ensures ScalarLen(a + b) == ScalarLen(a)
  {
    if b == [] { assert a + b == a; }
  }

  lemma ScalarInterior(b: seq<byte>, i: nat)
    requires 0 < i < ScalarLen(b)
    ensures IsCont(b[i])
  {
  }

  lemma ValidStart(b: seq<byte>)
    requires Valid(b) && b != []
    ensures !IsCont(b[0])
  {
  }

  lemma {:induction false} ValidConcat(a: seq<byte>, b: seq<byte>)
    requires Valid(a) && Valid(b)
    ensures Valid(a + b)
    decreases |a|
  {
    if a == [] {
      assert a + b == b;
    } else {
      var n := ScalarLen(a);
      ScalarLenPrefix(a, a + b);
      assert (a + b)[n..] == a[n..] + b;
      ValidConcat(a[n..], b);
    }
  }

  /** In a valid text the boundaries are exactly the places where a valid text starts again. */
  lemma {:induction false} BoundaryIsValidTail(b: seq<byte>, i: nat)
    requires Valid(b) && i <= |b|
    ensures IsBoundary(b, i) <==> Valid(b[i..])
    decreases |b|
  {
    if i == 0 {
      assert b[0..] == b;
      if b != [] { ValidStart(b); }
    } else if i < |b| {
      var n := ScalarLen(b);
      if i < n {
        ScalarInterior(b, i);
        if Valid(b[i..]) { ValidStart(b[i..]); }
      } else {
        BoundaryIsValidTail(b[n..], i - n);
        assert b[n..][i - n..] == b[i..];
      }
    }
  }

  lemma {:induction false} BoundaryIsValidHead(b: seq<byte>, i: nat)
    requires Valid(b) && i <= |b| && IsBoundary(b, i)
    ensures Valid(b[..i])
    decreases |b|
  {
    if i > 0 {
      var n := ScalarLen(b);
      if i < n {
        ScalarInterior(b, i);
      } else {
        assert b[n..][..i - n] == b[n..i];
        BoundaryIsValidHead(b[n..], i - n);
        assert b[..i] == b[..n] + b[n..i];
        ScalarLenHead(b);
        assert b[..i][n..] == b[n..i];
        ScalarLenPrefix(b[..n], b[..i]);
      }
    }
  }

  lemma ScalarLenHead(b: seq<byte>)
    ensures ScalarLen(b[..ScalarLen(b)]) == ScalarLen(b)
  {
  }

  /** A valid text found inside a valid text starts at a boundary and ends at one. */
  lemma {:induction false} MatchAtBoundaries(text: seq<byte>, at: nat, needle: seq<byte>)
    requires Valid(text) && Valid(needle) && needle != []
    requires at + |needle| <= |text| && text[at..at + |needle|] == needle
    ensures IsBoundary(text, at) && IsBoundary(text, at + |needle|)
  {
    ValidStart(needle);
    assert text[at] == needle[0];
    BoundaryIsValidTail(text, at);
    assert text[at..] == needle + text[at + |needle|..];
    DropValid(needle, text[at + |needle|..]);
    BoundaryIsValidTail(text, at + |needle|);
  }

  lemma {:induction false} DropValid(a: seq<byte>, b: seq<byte>)
    requires Valid(a) && Valid(a + b)
    ensures Valid(b)
    decreases |a|
  {
    if a == [] {
      assert a + b == b;
    } else {
      var n := ScalarLen(a);
      ScalarLenPrefix(a, a + b);
      assert (a + b)[n..] == a[n..] + b;
      DropValid(a[n..], b);
    }
  }
}
