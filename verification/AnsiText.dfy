/**
  Stripping terminal escape sequences and truncating at a character. Both work on
  bytes; the references they are proved against read one scalar at a time.
 */
module AnsiText {
  import opened Wrappers
  import opened Sequences
  import opened Utf8

  const ESC: byte := 0x1B
  const BEL: byte := 0x07
  const BACKSLASH: byte := 0x5C
  const ELLIPSIS: seq<byte> := [0xE2, 0x80, 0xA6]

  // --- A terminal, one scalar at a time -------------------------------------

  datatype Mode = Ground | Escape | Charset | Csi | Osc | OscEscape

  predicate IsFinal(x: byte) { 0x40 <= x <= 0x7E }

  /** What the first byte of a scalar does; only in `Ground` is a scalar shown. */
  function NextMode(mode: Mode, x: byte): Mode {
    match mode
    case Ground => if x == ESC then Escape else Ground
    case Escape => if x == 0x5B then Csi else if x == 0x5D then Osc else if x == 0x28 || x == 0x29 then Charset
      else Ground
    case Charset => Ground
    case Csi => if IsFinal(x) then Ground else Csi
    case Osc => if x == BEL then Ground else if x == ESC then OscEscape else Osc
    case OscEscape => if x == BACKSLASH || x == BEL then Ground else if x == ESC then OscEscape else Osc
  }

  function Shown(mode: Mode, s: seq<byte>): seq<byte>
    requires Valid(s)
    decreases |s|
  {
    if s == [] then []
    else
      var n := ScalarLen(s);
      (if mode == Ground && s[0] != ESC then s[..n] else []) + Shown(NextMode(mode, s[0]), s[n..])
  }

  // --- The program's skips, on what follows ---------------------------------

  function SkipCsi(t: seq<byte>): (n: nat)
    ensures n <= |t|
  {
    if t == [] then 0 else if IsFinal(t[0]) then 1 else 1 + SkipCsi(t[1..])
  }

  function SkipString(t: seq<byte>): (n: nat)
    ensures n <= |t|
  {
    if t == [] then 0
    else if t[0] == BEL then 1
    else if t[0] == ESC && |t| >= 2 && t[1] == BACKSLASH then 2
    else 1 + SkipString(t[1..])
  }

  /** The bytes of the sequence after its ESC. */
  function SkipEscape(t: seq<byte>): (n: nat)
    ensures n <= |t|
  {
    if t == [] then 0
    else if t[0] == 0x5B then 1 + SkipCsi(t[1..])
    else if t[0] == 0x5D then 1 + SkipString(t[1..])
    else if t[0] == 0x28 || t[0] == 0x29 then 1 + ScalarLen(t[1..])
    else ScalarLen(t)
  }

  function FindEsc(s: seq<byte>): (i: nat)
    ensures i <= |s| && ESC !in s[..i] && (i < |s| ==> s[i] == ESC)
  {
    if s == [] || s[0] == ESC then 0
    else
      assert s[..1 + FindEsc(s[1..])] == [s[0]] + s[1..][..FindEsc(s[1..])];
      1 + FindEsc(s[1..])
  }

  /** Where the text goes on after its first escape sequence. */
  function Resume(s: seq<byte>): (k: nat)
    requires FindEsc(s) < |s|
    ensures FindEsc(s) < k <= |s|
  {
    FindEsc(s) + 1 + SkipEscape(s[FindEsc(s) + 1..])
  }

  function Stripped(s: seq<byte>): seq<byte>
    decreases |s|
  {
    if FindEsc(s) == |s| then s else s[..FindEsc(s)] + Stripped(s[Resume(s)..])
  }

  // --- The skips stop at boundaries, where the terminal is back on ground ----

  lemma DropScalar(s: seq<byte>)
    requires Valid(s) && s != []
    ensures 0 < ScalarLen(s) && Valid(s[ScalarLen(s)..])
  {
  }

  lemma AsciiIsScalar(s: seq<byte>)
    requires s != [] && s[0] <= 0x7F
    ensures ScalarLen(s) == 1
  {
  }

  /** A scalar of more than one byte holds none below 0x80. */
  lemma WideScalar(s: seq<byte>, k: nat)
    requires k < ScalarLen(s) && ScalarLen(s) > 1
    ensures s[k] >= 0x80
  {
  }

  lemma {:induction false} CsiOverWide(t: seq<byte>, n: nat)
    requires n <= |t| && forall k :: 0 <= k < n ==> t[k] >= 0x80
    ensures SkipCsi(t) == n + SkipCsi(t[n..])
  {
    if n == 0 { assert t[0..] == t; } else { CsiOverWide(t[1..], n - 1); assert t[1..][n - 1..] == t[n..]; }
  }

  lemma {:induction false} StringOverWide(t: seq<byte>, n: nat)
    requires n <= |t| && forall k :: 0 <= k < n ==> t[k] >= 0x80
    ensures SkipString(t) == n + SkipString(t[n..])
  {
    if n == 0 { assert t[0..] == t; } else { StringOverWide(t[1..], n - 1); assert t[1..][n - 1..] == t[n..]; }
  }

  lemma {:induction false} CsiShown(t: seq<byte>)
    requires Valid(t)
    ensures Valid(t[SkipCsi(t)..]) && Shown(Csi, t) == Shown(Ground, t[SkipCsi(t)..])
    decreases |t|
  {
    hide ScalarLen, Valid;
    if t != [] {
      DropScalar(t);
      var n := ScalarLen(t);
      ShownStep(Csi, t);
      if n == 1 {
        if !IsFinal(t[0]) { CsiShown(t[1..]); assert t[SkipCsi(t)..] == t[1..][SkipCsi(t[1..])..]; }
      } else {
        forall k | 0 <= k < n ensures t[k] >= 0x80 { WideScalar(t, k); }
        CsiOverWide(t, n);
        CsiShown(t[n..]);
        assert t[SkipCsi(t)..] == t[n..][SkipCsi(t[n..])..];
      }
    }
  }

  lemma ShownStep(mode: Mode, s: seq<byte>)
    requires Valid(s) && s != []
    ensures var n := ScalarLen(s);
      Valid(s[n..])
        && Shown(mode, s) ==
          (if mode == Ground && s[0] != ESC then s[..n] else []) + Shown(NextMode(mode, s[0]), s[n..])
  {
    hide ScalarLen;
  }

  /** After an ESC within a string, the string goes on as it would have unless a backslash ends it. */
  lemma {:induction false} StringShown(t: seq<byte>)
    requires Valid(t)
    ensures Valid(t[SkipString(t)..]) && Shown(Osc, t) == Shown(Ground, t[SkipString(t)..])
    ensures t != [] && t[0] != BACKSLASH ==> Shown(OscEscape, t) == Shown(Osc, t)
    ensures t == [] ==> Shown(OscEscape, t) == []
    decreases |t|
  {
    hide ScalarLen, Valid;
    if t != [] {
      DropScalar(t);
      var n := ScalarLen(t);
      ShownStep(Osc, t);
      ShownStep(OscEscape, t);
      if n > 1 {
        WideScalar(t, 0);
        forall k | 0 <= k < n ensures t[k] >= 0x80 { WideScalar(t, k); }
        StringOverWide(t, n);
        StringShown(t[n..]);
        assert t[SkipString(t)..] == t[n..][SkipString(t[n..])..];
      } else if t[0] != BEL {
        StringShown(t[1..]);
        if t[0] == ESC && |t| >= 2 && t[1] == BACKSLASH {
          AsciiIsScalar(t[1..]);
          ShownStep(OscEscape, t[1..]);
          assert t[1..][1..] == t[2..];
        } else {
          assert t[SkipString(t)..] == t[1..][SkipString(t[1..])..];
        }
      }
    }
  }

  lemma EscapeShown(t: seq<byte>)
    requires Valid(t)
    ensures Valid(t[SkipEscape(t)..]) && Shown(Escape, t) == Shown(Ground, t[SkipEscape(t)..])
  {
    hide ScalarLen, Valid;
    if t != [] {
      DropScalar(t);
      ShownStep(Escape, t);
      if t[0] == 0x5B || t[0] == 0x5D || t[0] == 0x28 || t[0] == 0x29 {
        AsciiIsScalar(t);
        var rest := t[1..];
        CsiShown(rest);
        StringShown(rest);
        if t[0] == 0x5B {
          assert t[SkipEscape(t)..] == rest[SkipCsi(rest)..];
        } else if t[0] == 0x5D {
          assert t[SkipEscape(t)..] == rest[SkipString(rest)..];
        } else {
          CharsetShown(rest);
          assert t[SkipEscape(t)..] == rest[ScalarLen(rest)..];
        }
      }
    }
  }

  lemma CharsetShown(t: seq<byte>)
    requires Valid(t)
    ensures Valid(t[ScalarLen(t)..]) && Shown(Charset, t) == Shown(Ground, t[ScalarLen(t)..])
  {
    if t != [] { ShownStep(Charset, t); }
  }

  /** Taking `n` bytes off a text that is plain up to `i`. */
  lemma PlainRest(s: seq<byte>, n: nat, i: nat)
    requires 0 < n <= i <= |s| && ESC !in s[..i]
    ensures s[0] != ESC && ESC !in s[n..][..i - n] && s[n..][i - n..] == s[i..]
    ensures s[..i] == s[..n] + s[n..][..i - n]
    ensures i < |s| ==> s[n..][i - n] == s[i]
  {
    assert s[0] == s[..i][0];
    assert s[n..][..i - n] == s[..i][n..];
  }

  lemma {:induction false} PlainShown(s: seq<byte>, i: nat)
    requires Valid(s) && i <= |s| && ESC !in s[..i] && (i == |s| || s[i] == ESC)
    ensures Valid(s[i..]) && Shown(Ground, s) == s[..i] + Shown(Ground, s[i..])
    decreases |s|
  {
    hide ScalarLen, Valid, Shown;
    if i == 0 {
      assert s[0..] == s && s[..0] == [];
    } else {
      DropScalar(s);
      var n := ScalarLen(s);
      ShownStep(Ground, s);
      ScalarBefore(s, i);
      PlainRest(s, n, i);
      PlainShown(s[n..], i - n);
      Join3(s[..n], s[n..][..i - n], Shown(Ground, s[i..]));
    }
  }

  lemma ScalarBefore(s: seq<byte>, i: nat)
    requires Valid(s) && s != [] && 0 < i <= |s| && (i == |s| || s[i] == ESC)
    ensures ScalarLen(s) <= i
  {
    if i < ScalarLen(s) { ScalarInterior(s, i); }
  }

  lemma StripStep(s: seq<byte>)
    ensures if FindEsc(s) == |s| then Stripped(s) == s else Stripped(s) == s[..FindEsc(s)] + Stripped(s[Resume(s)..])
  {
    hide FindEsc, Resume;
  }

  lemma SequenceShown(s: seq<byte>)
    requires Valid(s) && s != [] && s[0] == ESC
    ensures Valid(s[1..]) && Valid(s[1 + SkipEscape(s[1..])..])
    ensures Shown(Ground, s) == Shown(Ground, s[1 + SkipEscape(s[1..])..])
  {
    hide ScalarLen, Valid, SkipEscape, Shown;
    AsciiIsScalar(s);
    DropScalar(s);
    ShownStep(Ground, s);
    EscapeShown(s[1..]);
    DropTwice(s, 1, SkipEscape(s[1..]));
  }

  /** Stripping leaves exactly what a terminal would show. */
  lemma {:induction false} StrippedIsShown(s: seq<byte>)
    requires Valid(s)
    ensures Stripped(s) == Shown(Ground, s)
    decreases |s|
  {
    hide ScalarLen, Valid, SkipEscape, Stripped, Shown;
    var i := FindEsc(s);
    PlainShown(s, i);
    StripStep(s);
    if i < |s| {
      var t := s[i..];
      DropTwice(s, i, 1);
      SequenceShown(t);
      DropTwice(s, i, 1 + SkipEscape(t[1..]));
      StrippedIsShown(s[Resume(s)..]);
    } else {
      assert s[i..] == [] && s[..i] == s;
      NothingShown(s[i..]);
    }
  }

  lemma NothingShown(s: seq<byte>)
    requires s == []
    ensures Valid(s) && Shown(Ground, s) == []
  {
  }

  // --- What stripping promises ----------------------------------------------

  ghost predicate Subsequence(a: seq<byte>, b: seq<byte>)
    decreases |b|
  {
    a == [] || (b != [] && ((a[0] == b[0] && Subsequence(a[1..], b[1..])) || Subsequence(a, b[1..])))
  }

  lemma {:induction false} SubsequenceAfter(x: seq<byte>, a: seq<byte>, b: seq<byte>)
    requires Subsequence(a, b)
    ensures Subsequence(x + a, x + b)
  {
    if x == [] {
      assert x + a == a && x + b == b;
    } else {
      assert (x + a)[1..] == x[1..] + a && (x + b)[1..] == x[1..] + b;
      SubsequenceAfter(x[1..], a, b);
    }
  }

  lemma {:induction false} SubsequenceSkip(a: seq<byte>, b: seq<byte>, n: nat)
    requires n <= |b| && Subsequence(a, b[n..])
    ensures Subsequence(a, b)
    decreases n
  {
    if n == 0 { assert b[0..] == b; } else { assert b[1..][n - 1..] == b[n..]; SubsequenceSkip(a, b[1..], n - 1); }
  }

  lemma {:induction false} SubsequenceSelf(a: seq<byte>)
    ensures Subsequence(a, a)
  {
    if a != [] { SubsequenceSelf(a[1..]); }
  }

  lemma {:induction false} StrippedIsSubsequence(s: seq<byte>)
    ensures Subsequence(Stripped(s), s) && ESC !in Stripped(s)
    decreases |s|
  {
    hide Resume, FindEsc, Stripped, Subsequence;
    var i := FindEsc(s);
    StripStep(s);
    if i == |s| {
      assert s[..i] == s;
      SubsequenceSelf(s);
    } else {
      var k := Resume(s);
      StrippedIsSubsequence(s[k..]);
      DropTwice(s, i, k - i);
      SubsequenceSkip(Stripped(s[k..]), s[i..], k - i);
      SubsequenceAfter(s[..i], Stripped(s[k..]), s[i..]);
      CutAt(s, i);
    }
  }

  lemma {:induction false} NoEsc(s: seq<byte>)
    requires ESC !in s
    ensures FindEsc(s) == |s|
  {
    if s != [] { NoEsc(s[1..]); }
  }

  lemma PlainStripped(s: seq<byte>)
    requires ESC !in s
    ensures Stripped(s) == s
  {
    NoEsc(s);
    StripStep(s);
  }

  /** Nothing is left to strip. */
  lemma StripTwice(s: seq<byte>)
    ensures Stripped(Stripped(s)) == Stripped(s)
  {
    hide Stripped;
    StrippedIsSubsequence(s);
    PlainStripped(Stripped(s));
  }

  // --- The program ----------------------------------------------------------

  /** A piece of a text. Cutting a character in two would be a failure of the program. */
  function Slice(s: seq<byte>, a: nat, b: nat): seq<byte>
    requires a <= b <= |s| && IsBoundary(s, a) && IsBoundary(s, b)
  {
    s[a..b]
  }

  method SkipCsiSequence(bytes: seq<byte>, start: nat) returns (cursor: nat)
    requires start <= |bytes|
    ensures cursor == start + SkipCsi(bytes[start..]) <= |bytes|
  {
    cursor := start;
    while cursor < |bytes|
      invariant start <= cursor <= |bytes|
      invariant start + SkipCsi(bytes[start..]) == cursor + SkipCsi(bytes[cursor..])
    {
      assert bytes[cursor..][1..] == bytes[cursor + 1..];
      var x := bytes[cursor];
      cursor := cursor + 1;
      if IsFinal(x) { return; }
    }
  }

  method SkipStringControlSequence(bytes: seq<byte>, start: nat) returns (cursor: nat)
    requires start <= |bytes|
    ensures cursor == start + SkipString(bytes[start..]) <= |bytes|
  {
    cursor := start;
    while cursor < |bytes|
      invariant start <= cursor <= |bytes|
      invariant start + SkipString(bytes[start..]) == cursor + SkipString(bytes[cursor..])
    {
      assert bytes[cursor..][1..] == bytes[cursor + 1..];
      if bytes[cursor] == BEL { return cursor + 1; }
      if bytes[cursor] == ESC {
        cursor := cursor + 1;
        if cursor < |bytes| && bytes[cursor] == BACKSLASH { return cursor + 1; }
      } else {
        cursor := cursor + 1;
      }
    }
  }

  /** Past one scalar; not at all past the end of the text or inside a character. */
  method SkipOneScalar(s: seq<byte>, cursor: nat) returns (r: nat)
    requires Valid(s)
    ensures cursor <= |s| && IsBoundary(s, cursor) ==>
      r == cursor + ScalarLen(s[cursor..]) <= |s| && IsBoundary(s, r) && (cursor < |s| ==> cursor < r)
    ensures !(cursor <= |s| && IsBoundary(s, cursor)) ==> r == cursor
  {
    if cursor > |s| || !IsBoundary(s, cursor) { return cursor; }
    OneScalarOn(s, cursor);
    r := cursor + ScalarLen(s[cursor..]);
  }

  lemma OneScalarOn(s: seq<byte>, cursor: nat)
    requires Valid(s) && cursor <= |s| && IsBoundary(s, cursor)
    ensures var r := cursor + ScalarLen(s[cursor..]); r <= |s| && IsBoundary(s, r) && (cursor < |s| ==> cursor < r)
  {
    hide ScalarLen, IsBoundary, Valid;
    BoundaryIsValidTail(s, cursor);
    if cursor < |s| {
      var n := ScalarLen(s[cursor..]);
      DropScalar(s[cursor..]);
      assert s[cursor..][n..] == s[cursor + n..];
      BoundaryIsValidTail(s, cursor + n);
    }
  }

  method SkipEscSequence(s: seq<byte>, start: nat) returns (cursor: nat)
    requires Valid(s) && start <= |s| && IsBoundary(s, start)
    ensures cursor == start + SkipEscape(s[start..]) <= |s|
  {
    hide ScalarLen, Valid;
    if start >= |s| { return start; }
    assert s[start..][1..] == s[start + 1..];
    if s[start] == 0x5B { cursor := SkipCsiSequence(s, start + 1); return; }
    if s[start] == 0x5D { cursor := SkipStringControlSequence(s, start + 1); return; }
    if s[start] == 0x28 || s[start] == 0x29 {
      AfterAscii(s, start);
      cursor := SkipOneScalar(s, start + 1);
      return;
    }
    cursor := SkipOneScalar(s, start);
  }

  lemma AfterAscii(s: seq<byte>, i: nat)
    requires Valid(s) && i < |s| && s[i] <= 0x7F
    ensures IsBoundary(s, i) && IsBoundary(s, i + 1) && Valid(s[i + 1..])
  {
    hide ScalarLen;
    BoundaryIsValidTail(s, i);
    AsciiIsScalar(s[i..]);
    DropScalar(s[i..]);
    assert s[i..][1..] == s[i + 1..];
    BoundaryIsValidTail(s, i + 1);
  }

  /** Every cut is at a character boundary, and the result is what a terminal shows. */
  method StripAnsiCodes(s: seq<byte>) returns (result: seq<byte>)
    requires Valid(s)
    ensures result == Stripped(s) && result == Shown(Ground, s)
    ensures ESC !in result && Subsequence(result, s)
  {
    hide ScalarLen, Valid, FindEsc, SkipEscape, Shown, Subsequence, IsBoundary, Stripped, Resume;
    StrippedIsShown(s);
    StrippedIsSubsequence(s);
    result := [];
    var spanStart := 0;
    StartIsBoundary(s);
    CutAt(s, 0);
    while true
      invariant spanStart <= |s| && IsBoundary(s, spanStart)
      invariant result + Stripped(s[spanStart..]) == Stripped(s)
      decreases |s| - spanStart
    {
      var found := FindEsc(s[spanStart..]);
      StripStep(s[spanStart..]);
      if found == |s| - spanStart {
        EndIsBoundary(s);
        assert s[spanStart..|s|] == s[spanStart..];
        result := result + Slice(s, spanStart, |s|);
        return;
      }
      var marker := spanStart + found;
      AfterAscii(s, marker);
      var next := SkipEscSequence(s, marker + 1);
      ResumesAt(s, spanStart, next);
      Join3(result, s[spanStart..marker], Stripped(s[next..]));
      result := result + Slice(s, spanStart, marker);
      spanStart := next;
    }
  }

  /** The place where stripping goes on is a boundary of the whole text. */
  lemma ResumesAt(s: seq<byte>, start: nat, next: nat)
    requires Valid(s) && start <= |s| && IsBoundary(s, start) && FindEsc(s[start..]) < |s| - start
    requires var marker := start + FindEsc(s[start..]);
      next == marker + 1 + SkipEscape(s[marker + 1..]) <= |s|
    ensures IsBoundary(s, next) && s[start..][Resume(s[start..])..] == s[next..]
    ensures s[start..][..FindEsc(s[start..])] == s[start..start + FindEsc(s[start..])]
  {
    hide ScalarLen, Valid, FindEsc, SkipEscape, IsBoundary;
    var t := s[start..];
    var found := FindEsc(t);
    DropTwice(s, start, found);
    DropTwice(s, start, found + 1);
    assert Resume(t) == next - start;
    DropTwice(s, start, next - start);
    ResumeBoundary(s, start + found);
  }

  lemma ResumeBoundary(s: seq<byte>, marker: nat)
    requires Valid(s) && marker < |s| && s[marker] == ESC
    ensures IsBoundary(s, marker + 1 + SkipEscape(s[marker + 1..]))
  {
    assert ESC <= 0x7F;
    hide *;
    var tail := s[marker + 1..];
    AfterAscii(s, marker);
    EscapeShown(tail);
    DropTwice(s, marker + 1, SkipEscape(tail));
    BoundaryIsValidTail(s, marker + 1 + SkipEscape(tail));
  }

  lemma StartIsBoundary(s: seq<byte>)
    requires Valid(s)
    ensures IsBoundary(s, 0)
  {
    if s != [] { ValidStart(s); }
  }

  lemma EndIsBoundary(s: seq<byte>)
    ensures IsBoundary(s, |s|)
  {
  }

  // --- Truncation -----------------------------------------------------------

  function ScalarCount(s: seq<byte>): nat
    decreases |s|
  {
    if ScalarLen(s) == 0 then 0 else 1 + ScalarCount(s[ScalarLen(s)..])
  }

  /** The first `n` scalars, or all of them. */
  function FirstScalars(s: seq<byte>, n: nat): seq<byte>
    decreases |s|
  {
    if n == 0 || ScalarLen(s) == 0 then [] else s[..ScalarLen(s)] + FirstScalars(s[ScalarLen(s)..], n - 1)
  }

  function Truncated(s: seq<byte>, n: nat): seq<byte> {
    if ScalarCount(s) > n then FirstScalars(s, n) + ELLIPSIS else s
  }

  lemma {:induction false} CountAtMostBytes(s: seq<byte>)
    ensures ScalarCount(s) <= |s|
    decreases |s|
  {
    if ScalarLen(s) > 0 { CountAtMostBytes(s[ScalarLen(s)..]); }
  }

  lemma {:induction false} AsciiPrefix(s: seq<byte>, n: nat)
    requires n < |s| && Valid(s) && forall k :: 0 <= k < n ==> s[k] <= 0x7F
    ensures ScalarCount(s) > n && FirstScalars(s, n) == s[..n]
    decreases n
  {
    hide ScalarLen;
    DropScalar(s);
    if n > 0 {
      AsciiIsScalar(s);
      AsciiPrefix(s[1..], n - 1);
      assert s[..n] == s[..1] + s[1..][..n - 1];
    }
  }

  /** The byte offset of scalar number `n`, counting from nought. */
  method NthScalar(s: seq<byte>, n: nat) returns (r: Option<nat>)
    requires Valid(s)
    ensures r.Some? <==> ScalarCount(s) > n
    ensures r.Some? ==> r.value <= |s| && s[..r.value] == FirstScalars(s, n)
  {
    hide ScalarLen, Valid, ScalarCount, FirstScalars;
    var i, k := 0, 0;
    CutAt(s, 0);
    while i < |s|
      invariant i <= |s| && k <= n && Valid(s[i..])
      invariant ScalarCount(s) == k + ScalarCount(s[i..])
      invariant FirstScalars(s, n) == s[..i] + FirstScalars(s[i..], n - k)
      decreases |s| - i
    {
      DropScalar(s[i..]);
      ScalarStep(s[i..], n - k);
      if k == n { return Some(i); }
      var width := ScalarLen(s[i..]);
      DropTwice(s, i, width);
      Join3(s[..i], s[i..i + width], FirstScalars(s[i + width..], n - k - 1));
      TakeMore(s, i, width);
      i, k := i + width, k + 1;
    }
    EmptyScalars(s[i..]);
    r := None;
  }

  lemma ScalarStep(s: seq<byte>, n: nat)
    requires Valid(s) && s != []
    ensures ScalarCount(s) == 1 + ScalarCount(s[ScalarLen(s)..])
    ensures FirstScalars(s, n) == if n == 0 then [] else s[..ScalarLen(s)] + FirstScalars(s[ScalarLen(s)..], n - 1)
  {
    hide ScalarLen;
  }

  lemma EmptyScalars(s: seq<byte>)
    requires s == []
    ensures ScalarCount(s) == 0
  {
  }

  /** The first `maxChars` scalars and an ellipsis exactly when there are more, by whichever path. */
  method TruncateAtCharBoundary(s: seq<byte>, maxChars: nat) returns (r: seq<byte>)
    requires Valid(s)
    ensures r == Truncated(s, maxChars)
    ensures r == if ScalarCount(s) > maxChars then FirstScalars(s, maxChars) + [0xE2, 0x80, 0xA6] else s
  {
    hide ScalarLen, Valid;
    CountAtMostBytes(s);
    if maxChars == 0 {
      if s == [] { EmptyScalars(s); return []; }
      DropScalar(s);
      return ELLIPSIS;
    }
    if |s| <= maxChars { return s; }
    if forall k :: 0 <= k < maxChars ==> s[k] <= 0x7F {
      AsciiPrefix(s, maxChars);
      return s[..maxChars] + ELLIPSIS;
    }
    var cut := NthScalar(s, maxChars);
    r := if cut.Some? then s[..cut.value] + ELLIPSIS else s;
  }
}
