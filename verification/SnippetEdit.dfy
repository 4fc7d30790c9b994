/**
  The snippet edit: an old snippet is found in the LF view, its place is mapped
  to bytes, and the new snippet is spliced in with the file's newlines. The main
  result says when splicing bytes is the same as editing the view.
 */
module SnippetEdit {
  import opened Wrappers
  import opened Sequences
  import opened Utf8
  import opened FileModel
  import opened FileLoading

  // --- Newline normalization ------------------------------------------------

  /** CRLF and CR become LF. */
  function ToLf(b: seq<byte>): seq<byte>
    decreases |b|
  {
    if b == [] then []
    else if b[0] == CR then [LF] + ToLf(b[if |b| >= 2 && b[1] == LF then 2 else 1..])
    else [b[0]] + ToLf(b[1..])
  }

  function NextByte(b: seq<byte>, x: byte, i: nat): (e: nat)
    requires i <= |b|
    ensures i <= e <= |b| && x !in b[i..e] && (e < |b| ==> b[e] == x)
    decreases |b| - i
  {
    if i == |b| || b[i] == x then i
    else
      var e := NextByte(b, x, i + 1);
      assert b[i..e] == [b[i]] + b[i + 1..e];
      e
  }

  lemma {:induction false} ToLfPlain(a: seq<byte>, rest: seq<byte>)
    requires CR !in a
    ensures ToLf(a + rest) == a + ToLf(rest)
  {
    if a == [] {
      assert a + rest == rest;
    } else {
      assert (a + rest)[1..] == a[1..] + rest && (a + rest)[0] == a[0];
      ToLfPlain(a[1..], rest);
    }
  }

  /** Copies the spans between carriage returns and writes one LF for each CR or CRLF. */
  method NormalizeNewlinesToLf(input: seq<byte>) returns (r: seq<byte>)
    ensures r == ToLf(input)
  {
    hide ToLf;
    assert input[0..] == input;
    if NextByte(input, CR, 0) == |input| {
      assert input[0..|input|] == input;
      ToLfPlain(input, []);
      ToLfEmpty();
      assert input + [] == input;
      return input;
    }
    r := [];
    var scanStart, copyStart := 0, 0;
    var cr := NextByte(input, CR, scanStart);
    while cr < |input|
      invariant 0 <= scanStart == copyStart <= cr <= |input|
      invariant cr == NextByte(input, CR, scanStart)
      invariant ToLf(input) == r + ToLf(input[copyStart..])
      decreases |input| - scanStart
    {
      ToLfStep(input, copyStart, cr);
      Regroup(r, input[copyStart..cr], [LF], ToLf(input[cr + CrWidth(input, cr)..]));
      r := r + input[copyStart..cr];
      r := r + [LF];
      scanStart := cr + 1;
      if scanStart < |input| && input[scanStart] == LF {
        scanStart := scanStart + 1;
      }
      copyStart := scanStart;
      cr := NextByte(input, CR, scanStart);
    }
    ToLfPlain(input[copyStart..], []);
    ToLfEmpty();
    assert input[copyStart..|input|] == input[copyStart..] && input[copyStart..] + [] == input[copyStart..];
    r := r + input[copyStart..];
  }

  /** How many bytes the newline at a carriage return takes. */
  function CrWidth(b: seq<byte>, cr: nat): nat { if cr + 1 < |b| && b[cr + 1] == LF then 2 else 1 }

  lemma ToLfEmpty()
    ensures ToLf([]) == []
  {
  }

  lemma ToLfStep(b: seq<byte>, i: nat, cr: nat)
    requires i <= cr < |b| && CR !in b[i..cr] && b[cr] == CR
    ensures cr + CrWidth(b, cr) <= |b|
    ensures ToLf(b[i..]) == b[i..cr] + [LF] + ToLf(b[cr + CrWidth(b, cr)..])
  {
    assert b[i..] == b[i..cr] + b[cr..];
    ToLfPlain(b[i..cr], b[cr..]);
    var w := CrWidth(b, cr);
    assert b[cr..][w..] == b[cr + w..];
    assert ToLf(b[cr..]) == [LF] + ToLf(b[cr + w..]);
  }

  lemma {:induction false} ToLfHasNoCr(b: seq<byte>)
    ensures CR !in ToLf(b)
    decreases |b|
  {
    if b != [] {
      if b[0] == CR { ToLfHasNoCr(b[CrWidth(b, 0)..]); } else { ToLfHasNoCr(b[1..]); }
    }
  }

  /** In a valid file the view is the file with its newlines normalized. */
  lemma {:induction false} ViewIsNormalized(b: seq<byte>)
    requires Valid(b)
    ensures CanonicalText(b) == ToLf(b)
    decreases |b|
  {
    if b != [] {
      var n := ScalarLen(b);
      ViewIsNormalized(b[n..]);
      if b[0] == CR && |b| >= 2 && b[1] == LF {
        AfterCrLf(b);
        ViewIsNormalized(b[2..]);
      } else if !IsNewline(b[0]) {
        LeadingScalarPlain(b);
        assert b == b[..n] + b[n..];
        ToLfPlain(b[..n], b[n..]);
      }
    }
  }

  lemma AfterCrLf(b: seq<byte>)
    requires Valid(b) && |b| >= 2 && b[0] == CR && b[1] == LF
    ensures Valid(b[2..])
  {
    assert b[1..][1..] == b[2..];
  }

  lemma LeadingScalarPlain(b: seq<byte>)
    requires Valid(b) && b != [] && !IsNewline(b[0])
    ensures CR !in b[..ScalarLen(b)]
  {
  }

  // --- Replacement bytes ----------------------------------------------------

  /** Every LF becomes the given newline. */
  function Expand(s: seq<byte>, newline: seq<byte>): seq<byte> {
    if s == [] then []
    else (if s[0] == LF then newline else [s[0]]) + Expand(s[1..], newline)
  }

  function CountLf(s: seq<byte>): nat {
    if s == [] then 0 else (if s[0] == LF then 1 else 0) + CountLf(s[1..])
  }

  function ReplacementByteLen(s: seq<byte>, kind: NewlineKind): nat {
    if kind == CrLf then |s| + CountLf(s) else |s|
  }

  lemma {:induction false} ExpandLength(s: seq<byte>, kind: NewlineKind)
    ensures |Expand(s, kind.Bytes())| == ReplacementByteLen(s, kind)
  {
    if s != [] { ExpandLength(s[1..], kind); }
  }

  lemma {:induction false} ExpandPlain(a: seq<byte>, rest: seq<byte>, newline: seq<byte>)
    requires LF !in a || newline == [LF]
    ensures Expand(a + rest, newline) == a + Expand(rest, newline)
  {
    if a == [] {
      assert a + rest == rest;
    } else {
      assert (a + rest)[1..] == a[1..] + rest && (a + rest)[0] == a[0];
      ExpandPlain(a[1..], rest, newline);
    }
  }

  method AppendReplacementBytes(out: seq<byte>, snippet: seq<byte>, kind: NewlineKind) returns (r: seq<byte>)
    ensures r == out + Expand(snippet, kind.Bytes())
    ensures |r| == |out| + ReplacementByteLen(snippet, kind)
  {
    ExpandLength(snippet, kind);
    r := out;
    if kind == Lf || kind == NoNewline {
      ExpandPlain(snippet, [], [LF]);
      assert snippet + [] == snippet;
      r := r + snippet;
    } else {
      hide Expand, ReplacementByteLen;
      var newline := kind.Bytes();
      var copyStart := 0;
      var next := NextByte(snippet, LF, 0);
      assert snippet[0..] == snippet;
      while next < |snippet|
        invariant 0 <= copyStart <= next <= |snippet| && next == NextByte(snippet, LF, copyStart)
        invariant out + Expand(snippet, newline) == r + Expand(snippet[copyStart..], newline)
        decreases |snippet| - copyStart
      {
        ExpandStep(snippet, copyStart, next, newline);
        Regroup(r, snippet[copyStart..next], newline, Expand(snippet[next + 1..], newline));
        r := r + snippet[copyStart..next];
        r := r + newline;
        copyStart := next + 1;
        next := NextByte(snippet, LF, copyStart);
      }
      assert snippet[copyStart..|snippet|] == snippet[copyStart..] == snippet[copyStart..] + [];
      ExpandPlain(snippet[copyStart..], [], newline);
      ExpandEmpty(newline);
      r := r + snippet[copyStart..];
    }
  }

  lemma ExpandEmpty(newline: seq<byte>)
    ensures Expand([], newline) == []
  {
  }

  lemma ExpandStep(s: seq<byte>, i: nat, at: nat, newline: seq<byte>)
    requires i <= at < |s| && LF !in s[i..at] && s[at] == LF
    ensures Expand(s[i..], newline) == s[i..at] + newline + Expand(s[at + 1..], newline)
  {
    assert s[i..] == s[i..at] + s[at..];
    ExpandPlain(s[i..at], s[at..], newline);
    assert s[at..][1..] == s[at + 1..];
  }

  /** Writing a snippet with the file's newlines and normalizing it again gives the snippet back. */
  lemma {:induction false} ExpandRoundTrip(s: seq<byte>, kind: NewlineKind)
    requires CR !in s
    ensures ToLf(Expand(s, kind.Bytes())) == s
  {
    if s != [] {
      ExpandRoundTrip(s[1..], kind);
      if s[0] == LF {
        ToLfOfNewline(kind, Expand(s[1..], kind.Bytes()));
        if kind == Cr { ExpandHead(s[1..], [CR]); }
      } else {
        assert ([s[0]] + Expand(s[1..], kind.Bytes()))[1..] == Expand(s[1..], kind.Bytes());
      }
    }
  }

  lemma ToLfOfNewline(kind: NewlineKind, rest: seq<byte>)
    requires kind == Cr && rest != [] ==> rest[0] != LF
    ensures ToLf(kind.Bytes() + rest) == [LF] + ToLf(rest)
  {
    if kind == CrLf {
      assert ([CR, LF] + rest)[2..] == rest;
    } else {
      assert (kind.Bytes() + rest)[1..] == rest;
    }
  }

  lemma ExpandHead(s: seq<byte>, newline: seq<byte>)
    requires newline == [CR]
    ensures Expand(s, newline) != [] ==> Expand(s, newline)[0] != LF
  {
  }

  lemma {:induction false} ExpandValid(s: seq<byte>, kind: NewlineKind)
    requires Valid(s)
    ensures Valid(Expand(s, kind.Bytes()))
    decreases |s|
  {
    if s != [] {
      var n := ScalarLen(s);
      ExpandValid(s[n..], kind);
      var rest := Expand(s[n..], kind.Bytes());
      if s[0] == LF {
        NewlineValid(kind);
        ValidConcat(kind.Bytes(), rest);
      } else {
        LeadingScalarNoLf(s);
        assert s == s[..n] + s[n..];
        ExpandPlain(s[..n], s[n..], kind.Bytes());
        HeadValid(s);
        ValidConcat(s[..n], rest);
      }
    }
  }

  lemma NewlineValid(kind: NewlineKind)
    ensures Valid(kind.Bytes())
  {
    assert [CR][1..] == [] && [LF][1..] == [] && [CR, LF][1..] == [LF];
  }

  lemma LeadingScalarNoLf(b: seq<byte>)
    requires Valid(b) && b != [] && b[0] != LF
    ensures LF !in b[..ScalarLen(b)]
  {
  }

  lemma HeadValid(b: seq<byte>)
    requires Valid(b) && b != []
    ensures Valid(b[..ScalarLen(b)])
  {
    ScalarLenHead(b);
    assert b[..ScalarLen(b)][ScalarLen(b)..] == [];
  }

  // --- Seams ----------------------------------------------------------------

  /** Putting `b` after `a` makes a CRLF that neither contains. */
  predicate Seam(a: seq<byte>, b: seq<byte>) { a != [] && b != [] && a[|a| - 1] == CR && b[0] == LF }

  lemma StepWithTail(a: seq<byte>, b: seq<byte>)
    requires Valid(a) && a != [] && !(a == [CR] && b != [] && b[0] == LF)
    ensures Step(a + b) == Step(a)
  {
    assert (a + b)[0] == a[0];
    if !IsNewline(a[0]) {
      ScalarLenPrefix(a, a + b);
      assert (a + b)[..ScalarLen(a)] == a[..ScalarLen(a)];
    } else if |a| == 1 {
      assert b != [] ==> (a + b)[1] == b[0];
    } else {
      assert (a + b)[1] == a[1];
    }
  }

  lemma StepLeavesValid(a: seq<byte>)
    requires Valid(a) && a != []
    ensures Valid(a[Step(a).width..])
  {
    if a[0] == CR && |a| >= 2 && a[1] == LF { AfterCrLf(a); }
  }

  /** The view of a concatenation is the concatenation of the views, less one LF for a seam. */
  lemma {:induction false} ViewConcat(a: seq<byte>, b: seq<byte>)
    requires Valid(a)
    ensures !Seam(a, b) ==> CanonicalText(a + b) == CanonicalText(a) + CanonicalText(b)
    ensures Seam(a, b) ==> |CanonicalText(a + b)| + 1 == |CanonicalText(a)| + |CanonicalText(b)|
    decreases |a|
  {
    hide Valid, Step, CanonicalText;
    if a == [] {
      assert a + b == b;
      assert CanonicalText(a) == [] by { ViewEmpty(); }
    } else if a == [CR] && b != [] && b[0] == LF {
      ViewOfSplitCrLf(b[1..]);
      assert a + b == [CR, LF] + b[1..] && b == [LF] + b[1..];
    } else {
      StepWithTail(a, b);
      StepLeavesValid(a);
      var w := Step(a).width;
      assert (a + b)[w..] == a[w..] + b;
      ViewConcat(a[w..], b);
      assert a[w..] != [] ==> a[w..][|a| - w - 1] == a[|a| - 1];
      if a[w..] == [] { NoSeamAtOnce(a, b); }
      ViewUnfold(a);
      ViewUnfold(a + b);
      assert Step(a).text + (CanonicalText(a[w..]) + CanonicalText(b)) ==
        Step(a).text + CanonicalText(a[w..]) + CanonicalText(b);
    }
  }

  lemma ViewEmpty()
    ensures CanonicalText([]) == []
  {
  }

  lemma ViewOfSplitCrLf(rest: seq<byte>)
    ensures CanonicalText([CR]) == [LF]
    ensures CanonicalText([CR, LF] + rest) == CanonicalText([LF] + rest) == [LF] + CanonicalText(rest)
  {
    hide CanonicalText;
    ViewUnfold([CR]);
    ViewUnfold([CR, LF] + rest);
    ViewUnfold([LF] + rest);
    ViewEmpty();
    assert [CR][1..] == [] && ([CR, LF] + rest)[2..] == rest && ([LF] + rest)[1..] == rest;
  }

  lemma NoSeamAtOnce(a: seq<byte>, b: seq<byte>)
    requires Valid(a) && a != [] && a[Step(a).width..] == []
    requires !(a == [CR] && b != [] && b[0] == LF)
    ensures !Seam(a, b)
  {
    if |a| > 1 && !IsNewline(a[0]) { ScalarInterior(a, |a| - 1); }
  }

  lemma ViewUnfold(a: seq<byte>)
    requires a != []
    ensures CanonicalText(a) == Step(a).text + CanonicalText(a[Step(a).width..])
  {
    hide ScalarLen;
    assert FileTokens(a)[1..] == FileTokens(a[Step(a).width..]);
  }
}
