/**
  What stands in for bytes that are not UTF-8: one replacement character for each
  longest piece that begins some character, and for each byte that begins none.
 */
module McpLossy {
  import opened Utf8
  import opened Utf8Laws
  import opened McpText

  /** The beginning of some character's encoding, but not all of it. */
  ghost predicate Opens(p: seq<byte>) {
    p != [] && exists c: nat :: IsScalar(c) && |p| < |Encode(c)| && Encode(c)[..|p|] == p
  }

  /** The same, byte by byte. */
  predicate OpensBytes(p: seq<byte>) {
    || (|p| == 1 && 0xC2 <= p[0] <= 0xF4)
    || (|p| == 2 && 0xE0 <= p[0] <= 0xF4 && SecondOk(p[0], p[1]))
    || (|p| == 3 && 0xF0 <= p[0] <= 0xF4 && SecondOk(p[0], p[1]) && IsCont(p[2]))
  }

  lemma OpensExactly(p: seq<byte>)
    ensures Opens(p) <==> OpensBytes(p)
  {
    if Opens(p) {
      var c: nat :| IsScalar(c) && |p| < |Encode(c)| && Encode(c)[..|p|] == p;
      EncodedIsFound(c, []);
      var e := Encode(c);
      assert e + [] == e;
      hide Encode;
      assert forall k :: 0 <= k < |p| ==> p[k] == e[k];
    } else if OpensBytes(p) {
      Completed(p);
    }
  }

  /** A second byte that fits the first. */
  function AnySecond(lead: byte): (x: byte)
    requires 0xE0 <= lead <= 0xF4
    ensures SecondOk(lead, x)
  {
    if lead == 0xE0 then 0xA0 else if lead == 0xF0 then 0x90 else 0x80
  }

  lemma Completed(p: seq<byte>)
    requires OpensBytes(p)
    ensures Opens(p)
  {
    var rest: seq<byte> :=
      if |p| == 1 then if p[0] <= 0xDF then [0x80] else if p[0] <= 0xEF then [AnySecond(p[0]), 0x80]
                       else [AnySecond(p[0]), 0x80, 0x80]
      else if |p| == 2 then if p[0] <= 0xEF then [0x80] else [0x80, 0x80]
      else [0x80];
    var e := p + rest;
    assert ScalarLen(e) == |e|;
    var c := FoundIsEncoded(e);
    assert e[..|e|] == e && Encode(c)[..|p|] == p;
  }

  /** What one replacement character stands for, where no character is. */
  lemma BrokenIsLongest(b: seq<byte>, m: nat)
    requires b != [] && ScalarLen(b) == 0 && m <= |b|
    ensures BrokenLen(b) == 1 || Opens(b[..BrokenLen(b)])
    ensures BrokenLen(b) < m ==> !Opens(b[..m])
  {
    OpensExactly(b[..BrokenLen(b)]);
    OpensExactly(b[..m]);
    hide Opens;
  }

  /** The replaced text, piece by piece. */
  lemma LossyPiece(b: seq<byte>)
    requires b != []
    ensures ScalarLen(b) > 0 ==> Lossy(b) == b[..ScalarLen(b)] + Lossy(b[ScalarLen(b)..])
    ensures ScalarLen(b) == 0 ==> Lossy(b) == [0xEF, 0xBF, 0xBD] + Lossy(b[BrokenLen(b)..])
  {
    hide ScalarLen, BrokenLen;
  }
}
