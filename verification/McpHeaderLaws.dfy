/**
  What the reader accepts, stated from outside: header names in any spelling and
  among any spaces, between any other lines, and lines that are messages by
  themselves. Spaces, spellings and numbers are described here by what they are, not
  by the functions the reader uses.
 */
module McpHeaderLaws {
  import opened Wrappers
  import opened Sequences
  import opened Utf8
  import opened McpText
  import opened McpWriter
  import opened McpParse
  import opened McpRoundTrip

  // --- Spaces ---------------------------------------------------------------

  /** The UTF-8 forms of the characters with the Unicode property White_Space. */
  predicate IsWhite(w: seq<byte>) {
    || w in [[9], [10], [11], [12], [13], [32]]
    || w in [[0xC2, 0x85], [0xC2, 0xA0], [0xE1, 0x9A, 0x80], [0xE2, 0x81, 0x9F], [0xE3, 0x80, 0x80]]
    || w in [[0xE2, 0x80, 0xA8], [0xE2, 0x80, 0xA9], [0xE2, 0x80, 0xAF]]
    || (|w| == 3 && w[0] == 0xE2 && w[1] == 0x80 && 0x80 <= w[2] <= 0x8A)
  }

  /** Nothing but white space. */
  ghost predicate Blank(b: seq<byte>)
    decreases |b|
  {
    b == [] || exists n :: 0 < n <= |b| && IsWhite(b[..n]) && Blank(b[n..])
  }

  lemma BlankStep(b: seq<byte>) returns (n: nat)
    requires Blank(b) && b != []
    ensures 0 < n <= |b| && IsWhite(b[..n]) && Blank(b[n..])
  {
    n :| 0 < n <= |b| && IsWhite(b[..n]) && Blank(b[n..]);
  }

  lemma WhiteAtFront(b: seq<byte>, n: nat)
    requires 0 < n <= |b| && IsWhite(b[..n])
    ensures SpaceLen(b) == n && ScalarLen(b) == n
    ensures forall k :: 0 <= k < n ==> b[k] != COLON && b[k] != 123 && b[k] != 91
  {
    var w := b[..n];
    assert n <= 3 && w[0] == b[0] && (n >= 2 ==> w[1] == b[1]) && (n >= 3 ==> w[2] == b[2]);
  }

  lemma SpaceIsWhite(b: seq<byte>)
    requires SpaceLen(b) > 0
    ensures IsWhite(b[..SpaceLen(b)])
  {
    var w := b[..SpaceLen(b)];
    assert w[0] == b[0] && (|w| >= 2 ==> w[1] == b[1]) && (|w| >= 3 ==> w[2] == b[2]);
    if |w| == 1 { assert w == [b[0]]; }
    else if |w| == 2 { assert w == [b[0], b[1]]; }
    else { assert w == [b[0], b[1], b[2]]; }
  }

  lemma CutSum(a: seq<byte>, b: seq<byte>, n: nat)
    requires n <= |a|
    ensures (a + b)[..n] == a[..n] && (a + b)[n..] == a[n..] + b
  {
  }

  lemma TrimStartOnce(b: seq<byte>, n: nat)
    requires SpaceLen(b) == n > 0
    ensures n <= |b| && TrimStart(b) == TrimStart(b[n..])
  {
    hide SpaceLen;
  }

  lemma {:induction false} TrimStartSkips(a: seq<byte>, b: seq<byte>)
    requires Blank(a)
    ensures TrimStart(a + b) == TrimStart(b)
    decreases |a|
  {
    hide SpaceLen, ScalarLen, Blank, IsWhite;
    if a == [] {
      assert a + b == b;
    } else {
      var n := BlankStep(a);
      CutSum(a, b, n);
      WhiteAtFront(a + b, n);
      TrimStartSkips(a[n..], b);
      hide TrimStart;
      TrimStartOnce(a + b, n);
    }
  }

  lemma {:induction false} BlankIsValid(a: seq<byte>)
    requires Blank(a)
    ensures Valid(a) && COLON !in a && 123 !in a && 91 !in a
    decreases |a|
  {
    hide ScalarLen, SpaceLen, IsWhite, Blank;
    if a != [] {
      var n := BlankStep(a);
      WhiteAtFront(a, n);
      BlankIsValid(a[n..]);
      assert a == a[..n] + a[n..];
    }
  }

  /** What is trimmed off the front is white space. */
  lemma {:induction false} TrimStartLeaves(b: seq<byte>) returns (k: nat)
    ensures k <= |b| && Blank(b[..k]) && b[k..] == TrimStart(b)
    decreases |b|
  {
    var n := SpaceLen(b);
    if n == 0 {
      k := 0;
      assert b[0..] == b;
    } else {
      SpaceIsWhite(b);
      hide SpaceLen, IsWhite;
      var deeper := TrimStartLeaves(b[n..]);
      k := n + deeper;
      DropTwice(b, n, deeper);
      CutTwice(b, n, k);
    }
  }

  lemma TrimAllBlank(b: seq<byte>)
    requires Blank(b)
    ensures TrimStart(b) == [] && TrimEnd(b) == []
  {
    TrimStartSkips(b, []);
    assert b + [] == b;
  }

  /** Visible ASCII before white space. */
  lemma {:induction false} TrimEndDrops(a: seq<byte>, b: seq<byte>)
    requires (forall k :: 0 <= k < |a| ==> Visible(a[k])) && Blank(b)
    ensures TrimEnd(a + b) == a
    decreases |a|
  {
    if a == [] {
      assert a + b == b;
      TrimAllBlank(b);
    } else {
      var all := a + b;
      assert all[0] == a[0] && all[1..] == a[1..] + b && all[..1] == [a[0]];
      assert SpaceLen(all) == 0 && ScalarLen(all) == 1;
      hide SpaceLen, ScalarLen;
      TrimEndDrops(a[1..], b);
      assert a == [a[0]] + a[1..];
    }
  }

  lemma TrimBetween(a: seq<byte>, text: seq<byte>, b: seq<byte>)
    requires Blank(a) && Blank(b) && text != [] && forall k :: 0 <= k < |text| ==> Visible(text[k])
    ensures Trim(a + text + b) == text && Valid(a + text + b)
  {
    hide Valid, Blank, TrimStart, TrimEnd;
    Join3(a, text, b);
    TrimStartSkips(a, text + b);
    NothingToTrim(text + b);
    TrimEndDrops(text, b);
    PartsValid(a, text, b);
  }

  lemma NothingToTrim(text: seq<byte>)
    requires text != [] && Visible(text[0])
    ensures TrimStart(text) == text
  {
  }

  lemma PartsValid(a: seq<byte>, text: seq<byte>, b: seq<byte>)
    requires Blank(a) && Blank(b) && forall k :: 0 <= k < |text| ==> Visible(text[k])
    ensures Valid(a + text + b)
  {
    hide Valid, Blank;
    BlankIsValid(a);
    BlankIsValid(b);
    AsciiValid(text);
    ValidConcat(a, text);
    ValidConcat(a + text, b);
  }

  lemma {:induction false} TrimEndLeaves(b: seq<byte>) returns (k: nat)
    requires Valid(b)
    ensures k <= |b| && Blank(b[k..]) && b[..k] == TrimEnd(b)
    decreases |b|
  {
    hide ScalarLen, Blank;
    if TrimStart(b) == [] {
      k := 0;
      var j := TrimStartLeaves(b);
      assert b[..j] == b && b[0..] == b;
    } else {
      assert b != [];
      hide TrimStart;
      var n := ScalarLen(b);
      ValidTail(b, n);
      var deeper := TrimEndLeaves(b[n..]);
      k := n + deeper;
      DropTwice(b, n, deeper);
      TakeMore(b, n, deeper);
    }
  }

  // --- Spellings and numbers ------------------------------------------------

  /** The name in some mixture of small and capital letters. */
  predicate Spelled(name: seq<byte>) {
    |name| == 14 && forall k :: 0 <= k < 14 ==> SameLetter(name[k], "content-length"[k])
  }

  predicate SameLetter(x: byte, c: char) { x as int == c as int || ('a' <= c <= 'z' && x as int == c as int - 32) }

  /** The text before a colon names the length: the name among white space. */
  ghost predicate NamesLength(text: seq<byte>) {
    exists i, j :: 0 <= i <= j <= |text| && NameWithin(text, i, j)
  }

  ghost predicate NameWithin(text: seq<byte>, i: nat, j: nat)
    requires i <= j <= |text|
  {
    Blank(text[..i]) && Spelled(text[i..j]) && Blank(text[j..])
  }

  lemma SpelledIsVisible(name: seq<byte>)
    requires Spelled(name)
    ensures forall k :: 0 <= k < |name| ==> Visible(name[k]) && name[k] != COLON
  {
    forall k | 0 <= k < |name|
      ensures Visible(name[k]) && name[k] != COLON
    {
      assert SameLetter(name[k], "content-length"[k]);
    }
  }

  lemma SpelledMatches(name: seq<byte>)
    ensures Spelled(name) <==> EqIgnoreAsciiCase(name, CONTENT_LENGTH)
  {
    if |name| == 14 {
      forall k | 0 <= k < 14
        ensures SameLetter(name[k], "content-length"[k]) <==> Lower(name[k]) == Lower(CONTENT_LENGTH[k])
      {
        assert "content-length"[k] as int == Lower(CONTENT_LENGTH[k]) as int;
      }
    }
  }

  /** The reader recognizes the name in every spelling and among all white space, and nothing else. */
  lemma NameExactly(text: seq<byte>)
    ensures NamesContentLength(text) <==> NamesLength(text)
  {
    if NamesLength(text) {
      var i, j :| 0 <= i <= j <= |text| && NameWithin(text, i, j);
      NameAmongSpaces(text, i, j);
    } else if NamesContentLength(text) {
      var i := TrimStartLeaves(text);
      BoundaryOfTail(text, i);
      var n := TrimEndLeaves(text[i..]);
      SpelledMatches(Trim(text));
      DropTwice(text, i, n);
      assert NameWithin(text, i, i + n);
    }
  }

  lemma NameAmongSpaces(text: seq<byte>, i: nat, j: nat)
    requires i <= j <= |text| && NameWithin(text, i, j)
    ensures NamesContentLength(text)
  {
    hide Blank, Valid, Spelled, Trim, EqIgnoreAsciiCase;
    var a, name, b := text[..i], text[i..j], text[j..];
    assert text == a + name + b;
    SpelledIsVisible(name);
    assert name != [] by { SpelledMatches(name); LongName(name); }
    TrimBetween(a, name, b);
    SpelledMatches(name);
  }

  lemma LongName(name: seq<byte>)
    requires EqIgnoreAsciiCase(name, CONTENT_LENGTH)
    ensures |name| == 14
  {
  }

  /** What is left of a valid text after white space is valid. */
  lemma BoundaryOfTail(text: seq<byte>, i: nat)
    requires Valid(text) && i <= |text| && Blank(text[..i])
    ensures Valid(text[i..])
  {
    ValidAfterBlank(text, i);
  }

  lemma CutTwice(text: seq<byte>, n: nat, i: nat)
    requires n <= i <= |text|
    ensures text[..i][..n] == text[..n] && text[..i][n..] == text[n..][..i - n]
  {
  }

  lemma ValidTail(text: seq<byte>, n: nat)
    requires Valid(text) && text != [] && ScalarLen(text) == n
    ensures n <= |text| && Valid(text[n..])
  {
  }

  lemma {:induction false} ValidAfterBlank(text: seq<byte>, i: nat)
    requires Valid(text) && i <= |text| && Blank(text[..i])
    ensures Valid(text[i..])
    decreases i
  {
    if i == 0 {
      assert text[0..] == text;
    } else {
      var n := BlankStep(text[..i]);
      hide ScalarLen, SpaceLen, IsWhite, Blank;
      CutTwice(text, n, i);
      WhiteAtFront(text, n);
      ValidTail(text, n);
      hide Valid;
      ValidAfterBlank(text[n..], i - n);
      DropTwice(text, n, i - n);
    }
  }

  /** A decimal number as it may be written: perhaps a plus, perhaps zeros, and the digits. */
  function Written(plus: bool, zeros: nat, v: nat): seq<byte> {
    (if plus then [43] else []) + Zeros(zeros) + Decimal(v)
  }

  function Zeros(n: nat): (z: seq<byte>)
    ensures |z| == n && forall k :: 0 <= k < n ==> z[k] == 48
  {
    if n == 0 then [] else Zeros(n - 1) + [48]
  }

  lemma {:induction false} ZerosParse(n: nat)
    ensures ParseDigits(Zeros(n)) == Some(0)
  {
    if n > 0 {
      assert Zeros(n)[..n - 1] == Zeros(n - 1);
      ZerosParse(n - 1);
    }
  }

  lemma {:induction false} DigitsAfterZeros(zeros: seq<byte>, d: seq<byte>)
    requires ParseDigits(zeros) == Some(0)
    ensures ParseDigits(zeros + d) == ParseDigits(d)
    decreases |d|
  {
    if d == [] {
      assert zeros + d == zeros;
    } else {
      assert (zeros + d)[..|zeros + d| - 1] == zeros + d[..|d| - 1];
      DigitsAfterZeros(zeros, d[..|d| - 1]);
    }
  }

  lemma WrittenParses(plus: bool, zeros: nat, v: nat)
    requires v <= MAX_USIZE
    ensures ParseUsize(Written(plus, zeros, v)) == Some(v)
    ensures forall k :: 0 <= k < |Written(plus, zeros, v)| ==> Visible(Written(plus, zeros, v)[k])
  {
    var d := Zeros(zeros) + Decimal(v);
    hide Decimal, Zeros, ParseDigits;
    ZerosParse(zeros);
    DigitsAfterZeros(Zeros(zeros), Decimal(v));
    DecimalParses(v);
    var w := Written(plus, zeros, v);
    assert plus ==> w[1..] == d;
    assert !plus ==> w == d && w[0] != 43 by { if !plus { assert w[0] in d; } }
  }
}
