/** UTF-8 by its definition: the encodings of the scalar values, section 3 of RFC 3629. */
module Utf8Laws {
  import opened Utf8

  /** A code point that is no surrogate. */
  predicate IsScalar(c: nat) { c <= 0x10FFFF && !(0xD800 <= c <= 0xDFFF) }

  /** The six bits of `c` at place `k`, behind the mark of a continuation byte. */
  function Tail(c: nat): byte { (0x80 + c % 64) as byte }

  function Encode(c: nat): (b: seq<byte>)
    requires IsScalar(c)
    ensures b != []
  {
    if c < 0x80 then [c as byte]
    else if c < 0x800 then [(0xC0 + c / 64) as byte, Tail(c)]
    else if c < 0x10000 then [(0xE0 + c / 4096) as byte, Tail(c / 64), Tail(c)]
    else [(0xF0 + c / 262144) as byte, Tail(c / 4096), Tail(c / 64), Tail(c)]
  }

  lemma TailIsCont(c: nat)
    ensures IsCont(Tail(c)) && Tail(c) as int - 0x80 == c % 64
  {
  }

  /** The parts of a number of four places of six bits. */
  lemma Places(a: nat, b: nat, c: nat, d: nat)
    requires b < 64 && c < 64 && d < 64
    ensures var v := a * 262144 + b * 4096 + c * 64 + d;
      v / 262144 == a && v / 4096 % 64 == b && v / 64 % 64 == c && v % 64 == d
      && v / 4096 == a * 64 + b && v / 64 == a * 4096 + b * 64 + c
  {
  }

  /** An encoded scalar is found, whatever follows it. */
  lemma EncodedIsFound(c: nat, rest: seq<byte>)
    requires IsScalar(c)
    ensures ScalarLen(Encode(c) + rest) == |Encode(c)|
  {
    var b := Encode(c) + rest;
    TailIsCont(c);
    TailIsCont(c / 64);
    TailIsCont(c / 4096);
    hide Tail;
    if c < 0x80 {
    } else if c < 0x800 {
      assert b[1] == Tail(c);
    } else if c < 0x10000 {
      ThreeBytes(c, b);
    } else {
      FourBytes(c, b);
    }
  }

  lemma ThreeBytes(c: nat, b: seq<byte>)
    requires 0x800 <= c < 0x10000 && IsScalar(c)
    requires |b| >= 3 && b[0] as int == 0xE0 + c / 4096 && b[1] == Tail(c / 64) && b[2] == Tail(c)
    ensures ScalarLen(b) == 3
  {
    var x, y := c / 4096, c / 64 % 64;
    TailIsCont(c);
    TailIsCont(c / 64);
    hide Tail;
    assert c == x * 4096 + y * 64 + c % 64;
    assert b[1] as int == 0x80 + y;
  }

  lemma FourBytes(c: nat, b: seq<byte>)
    requires 0x10000 <= c && IsScalar(c)
    requires |b| >= 4 && b[0] as int == 0xF0 + c / 262144
    requires b[1] == Tail(c / 4096) && b[2] == Tail(c / 64) && b[3] == Tail(c)
    ensures ScalarLen(b) == 4
  {
    var x, y := c / 262144, c / 4096 % 64;
    TailIsCont(c);
    TailIsCont(c / 64);
    TailIsCont(c / 4096);
    hide Tail;
    assert c == x * 262144 + y * 4096 + c % 4096;
    assert b[1] as int == 0x80 + y;
  }

  /** What is found at the front is the encoding of a scalar. */
  lemma FoundIsEncoded(b: seq<byte>) returns (c: nat)
    requires ScalarLen(b) > 0
    ensures IsScalar(c) && b[..ScalarLen(b)] == Encode(c)
  {
    var n := ScalarLen(b);
    if n == 1 {
      c := b[0] as nat;
    } else if n == 2 {
      c := TwoDecoded(b[0], b[1]);
    } else if n == 3 {
      c := ThreeDecoded(b[0], b[1], b[2]);
    } else {
      c := FourDecoded(b[0], b[1], b[2], b[3]);
    }
  }

  lemma TwoDecoded(x: byte, y: byte) returns (c: nat)
    requires 0xC2 <= x <= 0xDF && IsCont(y)
    ensures IsScalar(c) && [x, y] == Encode(c)
  {
    c := (x as nat - 0xC0) * 64 + (y as nat - 0x80);
    Places(0, 0, x as nat - 0xC0, y as nat - 0x80);
  }

  lemma ThreeDecoded(x: byte, y: byte, z: byte) returns (c: nat)
    requires 0xE0 <= x <= 0xEF && SecondOk(x, y) && IsCont(z)
    ensures IsScalar(c) && [x, y, z] == Encode(c)
  {
    c := (x as nat - 0xE0) * 4096 + (y as nat - 0x80) * 64 + (z as nat - 0x80);
    Places(0, x as nat - 0xE0, y as nat - 0x80, z as nat - 0x80);
  }

  lemma FourDecoded(x: byte, y: byte, z: byte, w: byte) returns (c: nat)
    requires 0xF0 <= x <= 0xF4 && SecondOk(x, y) && IsCont(z) && IsCont(w)
    ensures IsScalar(c) && [x, y, z, w] == Encode(c)
  {
    c := (x as nat - 0xF0) * 262144 + (y as nat - 0x80) * 4096 + (z as nat - 0x80) * 64 + (w as nat - 0x80);
    Places(x as nat - 0xF0, y as nat - 0x80, z as nat - 0x80, w as nat - 0x80);
  }

  /** A scalar of `n` bytes stands at the front exactly when the front is the encoding of one. */
  lemma ScalarExactly(b: seq<byte>, n: nat)
    requires 0 < n <= |b|
    ensures ScalarLen(b) == n <==> exists c: nat :: IsScalar(c) && b[..n] == Encode(c)
  {
    if ScalarLen(b) == n {
      var c := FoundIsEncoded(b);
    }
    forall c: nat | IsScalar(c) && b[..n] == Encode(c)
      ensures ScalarLen(b) == n
    {
      EncodedIsFound(c, b[n..]);
      assert b == Encode(c) + b[n..];
    }
  }

  /** The texts of scalar values, one after another. */
  function EncodeAll(cs: seq<nat>): seq<byte>
    requires forall k :: 0 <= k < |cs| ==> IsScalar(cs[k])
  {
    if cs == [] then [] else Encode(cs[0]) + EncodeAll(cs[1..])
  }

  /** A text is valid exactly when it is the encoding of some scalar values. */
  lemma {:induction false} ValidIsEncoded(b: seq<byte>) returns (cs: seq<nat>)
    requires Valid(b)
    ensures (forall k :: 0 <= k < |cs| ==> IsScalar(cs[k])) && EncodeAll(cs) == b
    decreases |b|
  {
    hide ScalarLen, Encode, IsScalar;
    if b == [] { return []; }
    var c := FoundIsEncoded(b);
    var rest := ValidIsEncoded(b[ScalarLen(b)..]);
    cs := [c] + rest;
    assert cs[1..] == rest;
  }

  lemma {:induction false} EncodedIsValid(cs: seq<nat>)
    requires forall k :: 0 <= k < |cs| ==> IsScalar(cs[k])
    ensures Valid(EncodeAll(cs))
  {
    if cs != [] {
      EncodedIsFound(cs[0], EncodeAll(cs[1..]));
      EncodedIsValid(cs[1..]);
      hide ScalarLen, Encode;
      var b := EncodeAll(cs);
      assert b[|Encode(cs[0])|..] == EncodeAll(cs[1..]);
    }
  }
}
