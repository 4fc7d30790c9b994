/**
  The byte-level text rules of the framing: trimming, decimal numbers and lines.
 */
module McpText {
  import opened Wrappers
  import opened Utf8

  const MAX_USIZE: nat := 0xFFFF_FFFF_FFFF_FFFF

  // --- Trimming -------------------------------------------------------------

  /** The width of the whitespace scalar at the front, in the Unicode sense; 0 when there is none. */
  function SpaceLen(b: seq<byte>): (n: nat)
    ensures n <= |b|
  {
    if b == [] then 0
    else if 0x09 <= b[0] <= 0x0D || b[0] == 0x20 then 1
    else if |b| >= 2 && b[0] == 0xC2 && (b[1] == 0x85 || b[1] == 0xA0) then 2
    else if |b| >= 3 && b[0] == 0xE1 && b[1] == 0x9A && b[2] == 0x80 then 3
    else if |b| >= 3 && b[0] == 0xE2 && b[1] == 0x80
      && (0x80 <= b[2] <= 0x8A || b[2] == 0xA8 || b[2] == 0xA9 || b[2] == 0xAF) then 3
    else if |b| >= 3 && b[0] == 0xE2 && b[1] == 0x81 && b[2] == 0x9F then 3
    else if |b| >= 3 && b[0] == 0xE3 && b[1] == 0x80 && b[2] == 0x80 then 3
    else 0
  }

  function TrimStart(b: seq<byte>): seq<byte>
    decreases |b|
  {
    if SpaceLen(b) == 0 then b else TrimStart(b[SpaceLen(b)..])
  }

  /** For valid UTF-8: scalars are dropped from the end while all that follows is space. */
  function TrimEnd(b: seq<byte>): seq<byte>
    decreases |b|
  {
    if TrimStart(b) == [] then []
    else if ScalarLen(b) == 0 then b
    else b[..ScalarLen(b)] + TrimEnd(b[ScalarLen(b)..])
  }

  function Trim(b: seq<byte>): seq<byte> { TrimEnd(TrimStart(b)) }

  predicate IsAsciiSpace(x: byte) { x == 0x20 || x == 0x09 || x == 0x0A || x == 0x0C || x == 0x0D }

  function TrimAsciiStart(b: seq<byte>): seq<byte> {
    if b != [] && IsAsciiSpace(b[0]) then TrimAsciiStart(b[1..]) else b
  }

  function TrimCrlfSuffix(b: seq<byte>): (r: seq<byte>)
    ensures r <= b
  {
    if b != [] && (b[|b| - 1] == LF || b[|b| - 1] == CR) then TrimCrlfSuffix(b[..|b| - 1]) else b
  }

  function Lower(x: byte): byte { if 65 <= x <= 90 then x + 32 else x }

  predicate EqIgnoreAsciiCase(a: seq<byte>, b: seq<byte>) {
    |a| == |b| && forall k :: 0 <= k < |a| ==> Lower(a[k]) == Lower(b[k])
  }

  // --- Decimal numbers ------------------------------------------------------

  const ZERO: byte := 48

  function DigitOf(v: nat): byte
    requires v < 10
  {
    ZERO + v as byte
  }

  function Decimal(v: nat): (d: seq<byte>)
    ensures d != [] && forall k :: 0 <= k < |d| ==> ZERO <= d[k] <= ZERO + 9
  {
    if v < 10 then [DigitOf(v)] else Decimal(v / 10) + [DigitOf(v % 10)]
  }

  /** The digits as a number of machine size; `None` for another character or an overflow. */
  function ParseDigits(d: seq<byte>): Option<nat> {
    if d == [] then Some(0)
    else
      var high, x := ParseDigits(d[..|d| - 1]), d[|d| - 1];
      if high.None? || !(ZERO <= x <= ZERO + 9) || high.value * 10 + (x - ZERO) as nat > MAX_USIZE then None
      else Some(high.value * 10 + (x - ZERO) as nat)
  }

  /** A leading plus is accepted, an empty text is not. */
  function ParseUsize(b: seq<byte>): Option<nat> {
    var digits := if |b| > 1 && b[0] == 43 then b[1..] else b;
    if digits == [] then None else ParseDigits(digits)
  }

  lemma {:induction false} DecimalParses(v: nat)
    requires v <= MAX_USIZE
    ensures ParseDigits(Decimal(v)) == Some(v)
  {
    if v < 10 {
      assert [DigitOf(v)][..0] == [];
    } else {
      DecimalParses(v / 10);
      assert Decimal(v)[..|Decimal(v)| - 1] == Decimal(v / 10);
    }
  }

  lemma UsizeRoundTrip(v: nat)
    requires v <= MAX_USIZE
    ensures ParseUsize(Decimal(v)) == Some(v)
  {
    DecimalParses(v);
  }

  function Pow10(k: nat): nat { if k == 0 then 1 else 10 * Pow10(k - 1) }

  lemma {:induction false} DecimalLen(v: nat, k: nat)
    requires v < Pow10(k) && k > 0
    ensures |Decimal(v)| <= k
  {
    if v >= 10 { DecimalLen(v / 10, k - 1); }
  }

  lemma UsizeDigits(v: nat)
    requires v <= MAX_USIZE
    ensures |Decimal(v)| <= 20
  {
    assert Pow10(5) == 100_000;
    assert Pow10(10) == 100_000 * Pow10(5) == 10_000_000_000;
    assert Pow10(15) == 100_000 * Pow10(10);
    assert Pow10(20) == 100_000 * Pow10(15);
    DecimalLen(v, 20);
  }

  // --- Lines ----------------------------------------------------------------

  /** The bytes up to and including the first LF, or all of them. */
  function LineOf(b: seq<byte>): (line: seq<byte>)
    ensures line <= b
    ensures line == [] <==> b == []
  {
    if b == [] then []
    else if b[0] == LF then [LF]
    else [b[0]] + LineOf(b[1..])
  }

  lemma {:induction false} LineAfter(a: seq<byte>, b: seq<byte>)
    requires LF !in a
    ensures LineOf(a + b) == a + LineOf(b)
  {
    if a == [] {
      assert a + b == b;
    } else {
      assert (a + b)[1..] == a[1..] + b && (a + b)[0] == a[0];
      LineAfter(a[1..], b);
    }
  }

  lemma LineEndsAt(a: seq<byte>, rest: seq<byte>)
    requires LF !in a
    ensures LineOf(a + [LF] + rest) == a + [LF]
  {
    LineAfter(a, [LF] + rest);
    assert a + [LF] + rest == a + ([LF] + rest);
  }

  function FindByte(b: seq<byte>, x: byte): (r: nat)
    ensures r <= |b| && x !in b[..r] && (r < |b| ==> b[r] == x)
  {
    if b == [] || b[0] == x then 0
    else
      assert b[..1 + FindByte(b[1..], x)] == [b[0]] + b[1..][..FindByte(b[1..], x)];
      1 + FindByte(b[1..], x)
  }

  // --- Replacing what is not UTF-8 ------------------------------------------

  /** The length of the longest prefix of some scalar's encoding, for bytes that encode none. */
  function BrokenLen(b: seq<byte>): (n: nat)
    requires b != []
    ensures 1 <= n <= |b|
  {
    if 0xE0 <= b[0] <= 0xF4 && |b| >= 2 && SecondOk(b[0], b[1]) then
      if b[0] >= 0xF0 && |b| >= 3 && IsCont(b[2]) then 3 else 2
    else 1
  }

  function Lossy(b: seq<byte>): seq<byte>
    decreases |b|
  {
    if b == [] then []
    else if ScalarLen(b) > 0 then b[..ScalarLen(b)] + Lossy(b[ScalarLen(b)..])
    else REPLACEMENT + Lossy(b[BrokenLen(b)..])
  }

  /** What replaces a line that is not UTF-8 is UTF-8, and a valid text is kept as it is. */
  lemma {:induction false} LossyIsValid(b: seq<byte>)
    ensures Valid(Lossy(b)) && (Valid(b) ==> Lossy(b) == b)
    decreases |b|
  {
    hide ScalarLen, BrokenLen;
    if b != [] {
      var n := ScalarLen(b);
      if n > 0 {
        LossyIsValid(b[n..]);
        OneScalarValid(b);
        assert b == b[..n] + b[n..];
        hide Valid;
        ValidConcat(b[..n], Lossy(b[n..]));
      } else {
        var rest := Lossy(b[BrokenLen(b)..]);
        LossyIsValid(b[BrokenLen(b)..]);
        ReplacementValid();
        ValidConcat(REPLACEMENT, rest);
      }
    }
  }

  lemma ReplacementValid()
    ensures Valid(REPLACEMENT)
  {
    assert REPLACEMENT[3..] == [];
  }

  lemma OneScalarValid(b: seq<byte>)
    requires ScalarLen(b) > 0
    ensures Valid(b[..ScalarLen(b)])
  {
    ScalarLenHead(b);
    assert b[..ScalarLen(b)][ScalarLen(b)..] == [];
  }
}
