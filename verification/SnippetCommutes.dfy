/** When editing the bytes is editing the view, and when it is not. */
module SnippetCommutes {
  import opened Wrappers
  import opened Utf8
  import opened FileModel
  import opened FileLoading
  import opened SnippetEdit
  import opened SnippetApply
  import opened SnippetHints

  /** A table entry cuts the file and its view at corresponding places. */
  lemma TableCuts(b: seq<byte>, e: Boundary)
    requires e in Table(b)
    ensures e.file <= |b| && e.canonical <= |CanonicalText(b)|
    ensures CanonicalText(b[..e.file]) == CanonicalText(b)[..e.canonical]
    ensures CanonicalText(b[e.file..]) == CanonicalText(b)[e.canonical..]
    ensures !Valid(b[..e.file]) || !Seam(b[..e.file], b[e.file..])
  {
    hide Table, FileTokens, ScalarLen;
    var k :| 0 <= k < |Table(b)| && Table(b)[k] == e;
    var ts := FileTokens(b);
    TableEntry(b, k);
    TokensSplit(b, k);
    TextConcat(ts[..k], ts[k..]);
    assert ts == ts[..k] + ts[k..];
    assert b == b[..e.file] + b[e.file..];
    if Valid(b[..e.file]) { ViewConcat(b[..e.file], b[e.file..]); }
  }

  lemma {:induction false} FoundInTable(t: seq<Boundary>, c: nat)
    ensures FindBoundary(t, c).Some? ==> Boundary(c, FindBoundary(t, c).value) in t
  {
    if t != [] && t[0].canonical != c { FoundInTable(t[1..], c); }
  }

  /** Neither end of the replacement makes a CRLF with its neighbour. */
  predicate SeamFree(before: seq<byte>, replacement: seq<byte>, after: seq<byte>) {
    !Seam(before, replacement + after) && !Seam(replacement, after)
  }

  /** What the applied edit replaces: the first match in the hinted lines, whose ends map to the byte range. */
  lemma AppliedRange(b: seq<byte>, req: Request)
    requires Decide(b, req).Applied?
    ensures var d, text, needle := Decide(b, req), CanonicalText(b), ToLf(req.oldSnippet);
      && d.start <= |b| && d.end <= |b| && d.at + |needle| <= |text|
      && text[d.at..d.at + |needle|] == needle
      && OccursWithin(text, needle, d.at, FirstLine(req.hint), LastLine(req.hint, text))
      && (forall k: nat :: k < d.at ==> !OccursWithin(text, needle, k, FirstLine(req.hint), LastLine(req.hint, text)))
      && Boundary(d.at, d.start) in Table(b) && Boundary(d.at + |needle|, d.end) in Table(b)
      && CanonicalText(b[..d.start]) == text[..d.at]
      && CanonicalText(b[d.end..]) == text[d.at + |needle|..]
  {
    hide Table, CanonicalText, FindBoundary, Views, Lines, SearchRange, ToLf, LineNumber, HintFits, FirstLine, LastLine;
    HintIsHeeded(b, req);
    var d, needle := Decide(b, req), ToLf(req.oldSnippet);
    FoundInTable(Table(b), d.at);
    FoundInTable(Table(b), d.at + |needle|);
    TableCuts(b, Boundary(d.at, d.start));
    TableCuts(b, Boundary(d.at + |needle|, d.end));
  }

  /**
    Editing commutes with canonicalization: the view of the written bytes is the
    old view with the match replaced by the normalized new snippet if and only if
    the splice makes no new CRLF. The bytes before the match must be valid UTF-8;
    what follows need not be.
   */
  lemma EditCommutes(b: seq<byte>, req: Request)
    requires Decide(b, req).Applied? && Valid(req.newSnippet)
    requires Valid(b[..Decide(b, req).start])
    ensures var d, text, n := Decide(b, req), CanonicalText(b), |ToLf(req.oldSnippet)|;
      && d.at + n <= |text|
      && (CanonicalText(Spliced(b, d.start, d.end, Replacement(b, req)))
            == text[..d.at] + ToLf(req.newSnippet) + text[d.at + n..]
          <==> SeamFree(b[..d.start], Replacement(b, req), b[d.end..]))
  {
    var d := Decide(b, req);
    AppliedRange(b, req);
    ReplacementView(b, req);
    hide Decide, CanonicalText, Valid, SeamFree, ToLf, Replacement, Table;
    var before, after, r := b[..d.start], b[d.end..], Replacement(b, req);
    SplicedParts(b, d.start, d.end, r);
    ThreeViews(before, r, after);
  }

  lemma SplicedParts(b: seq<byte>, start: nat, end: nat, r: seq<byte>)
    requires start <= |b| && end <= |b|
    ensures Spliced(b, start, end, r) == b[..start] + (r + b[end..])
  {
  }

  /** Three parts show as their views put together exactly when no seam arises; each seam costs one LF. */
  lemma ThreeViews(before: seq<byte>, r: seq<byte>, after: seq<byte>)
    requires Valid(before) && Valid(r)
    ensures CanonicalText(before + (r + after)) == CanonicalText(before) + CanonicalText(r) + CanonicalText(after)
       <==> SeamFree(before, r, after)
  {
    hide CanonicalText, Valid, Seam;
    ViewConcat(before, r + after);
    ViewConcat(r, after);
    PartsFit(CanonicalText(before), CanonicalText(r), CanonicalText(after), CanonicalText(before + (r + after)),
             CanonicalText(r + after), Seam(before, r + after), Seam(r, after));
  }

  lemma PartsFit(a: seq<byte>, b: seq<byte>, c: seq<byte>, whole: seq<byte>, tail: seq<byte>, s1: bool, s2: bool)
    requires if s1 then |whole| + 1 == |a| + |tail| else whole == a + tail
    requires if s2 then |tail| + 1 == |b| + |c| else tail == b + c
    ensures whole == a + b + c <==> !s1 && !s2
  {
    assert a + (b + c) == a + b + c;
  }

  lemma ReplacementView(b: seq<byte>, req: Request)
    requires Valid(req.newSnippet)
    ensures Valid(Replacement(b, req)) && CanonicalText(Replacement(b, req)) == ToLf(req.newSnippet)
  {
    hide CanonicalText, ScalarLen, Expand, ToLf;
    NormalizedValid(req.newSnippet);
    ToLfHasNoCr(req.newSnippet);
    ExpandValid(ToLf(req.newSnippet), FileNewline(b));
    ViewIsNormalized(Replacement(b, req));
    ExpandRoundTrip(ToLf(req.newSnippet), FileNewline(b));
  }

  // --- One kind of newline --------------------------------------------------

  /** At most one kind of newline occurs. */
  predicate SingleKind(s: NewlineStats) {
    (s.lf == 0 && s.crlf == 0) || (s.lf == 0 && s.cr == 0) || (s.crlf == 0 && s.cr == 0)
  }

  lemma {:induction false} CountZero(lines: seq<LineSlice>, kind: NewlineKind)
    requires kind != NoNewline && StatsOf(lines).Count(kind) == 0
    ensures forall l :: l in lines ==> l.kind != kind
  {
    if lines != [] {
      var n := |lines| - 1;
      CountZero(lines[..n], kind);
      assert lines == lines[..n] + [lines[n]];
    }
  }

  predicate Without(lines: seq<LineSlice>, kind: NewlineKind) {
    forall l :: l in lines ==> l.kind != kind
  }

  predicate Lacks(b: seq<byte>, i: nat, j: nat, x: byte)
    requires j <= |b|
  {
    forall k :: i <= k < j ==> b[k] != x
  }

  /** Every CR from `i` to `j` is that of a CRLF. */
  predicate OnlyCrLf(b: seq<byte>, i: nat, j: nat)
    requires j <= |b|
  {
    forall k :: i <= k < j && b[k] == CR ==> k + 1 < |b| && b[k + 1] == LF
  }

  lemma LineBytes(b: seq<byte>, i: nat)
    requires i < |b|
    ensures var l := LineAt(b, i);
      && (l.kind != Cr && l.kind != CrLf ==> Lacks(b, i, l.newlineEnd, CR))
      && (l.kind != Lf && l.kind != CrLf ==> Lacks(b, i, l.newlineEnd, LF))
      && (l.kind != Cr ==> OnlyCrLf(b, i, l.newlineEnd))
  {
    assert forall k :: i <= k < LineAt(b, i).contentEnd ==> !IsNewline(b[k]);
    hide NextNewline;
  }

  lemma WithoutHead(head: LineSlice, rest: seq<LineSlice>, kind: NewlineKind)
    ensures Without([head] + rest, kind) <==> head.kind != kind && Without(rest, kind)
  {
    var lines := [head] + rest;
    assert lines[0] == head && forall l :: l in lines <==> l == head || l in rest;
  }

  /** Newline bytes of the file appear only as the newlines of its lines. */
  lemma {:induction false} NewlineBytes(b: seq<byte>, i: nat)
    requires i <= |b|
    ensures Without(LinesFrom(b, i), Cr) && Without(LinesFrom(b, i), CrLf) ==> Lacks(b, i, |b|, CR)
    ensures Without(LinesFrom(b, i), Lf) && Without(LinesFrom(b, i), CrLf) ==> Lacks(b, i, |b|, LF)
    ensures Without(LinesFrom(b, i), Cr) ==> OnlyCrLf(b, i, |b|)
    decreases |b| - i
  {
    if i < |b| {
      hide LineAt, Without;
      var l := LineAt(b, i);
      var rest := LinesFrom(b, l.newlineEnd);
      LineBytes(b, i);
      NewlineBytes(b, l.newlineEnd);
      WithoutHead(l, rest, Cr);
      WithoutHead(l, rest, Lf);
      WithoutHead(l, rest, CrLf);
    }
  }

  lemma {:induction false} ExpandEnd(s: seq<byte>)
    requires CR !in s
    ensures Expand(s, [CR, LF]) != [] ==> Expand(s, [CR, LF])[|Expand(s, [CR, LF])| - 1] != CR
  {
    if s != [] { ExpandEnd(s[1..]); }
  }

  lemma {:induction false} ExpandToCr(s: seq<byte>)
    ensures LF !in Expand(s, [CR])
  {
    if s != [] { ExpandToCr(s[1..]); }
  }

  lemma ExpandToLf(s: seq<byte>)
    ensures Expand(s, [LF]) == s
  {
    ExpandPlain(s, [], [LF]);
    assert s + [] == s;
  }

  lemma NoCrNoSeam(before: seq<byte>, r: seq<byte>, after: seq<byte>)
    requires CR !in before && CR !in r
    ensures SeamFree(before, r, after)
  {
  }

  lemma NoLfNoSeam(before: seq<byte>, r: seq<byte>, after: seq<byte>)
    requires LF !in r && LF !in after
    ensures SeamFree(before, r, after)
  {
    assert LF !in r + after;
  }

  lemma NoEndingCrNoSeam(before: seq<byte>, r: seq<byte>, after: seq<byte>)
    requires (before != [] ==> before[|before| - 1] != CR) && (r != [] ==> r[|r| - 1] != CR)
    ensures SeamFree(before, r, after)
  {
  }

  lemma CrLfCut(b: seq<byte>, f: nat)
    requires f <= |b| && !Seam(b[..f], b[f..])
    requires forall k :: 0 <= k < |b| && b[k] == CR ==> k + 1 < |b| && b[k + 1] == LF
    ensures b[..f] != [] ==> b[..f][|b[..f]| - 1] != CR
  {
    if f > 0 && b[f - 1] == CR { assert b[f..][0] == b[f]; }
  }

  /** A valid file with one kind of newline is always edited without a seam. */
  lemma SingleKindSeamFree(b: seq<byte>, req: Request)
    requires Decide(b, req).Applied? && Valid(b)
    requires SingleKind(StatsOf(Lines(b)))
    ensures SeamFree(b[..Decide(b, req).start], Replacement(b, req), b[Decide(b, req).end..])
  {
    var d := Decide(b, req);
    AppliedRange(b, req);
    ValidBefore(b, Boundary(d.at, d.start));
    TableCuts(b, Boundary(d.at, d.start));
    ToLfHasNoCr(req.newSnippet);
    SeamFreeAt(b, d.start, d.end, ToLf(req.newSnippet));
  }

  lemma SeamFreeAt(b: seq<byte>, start: nat, end: nat, content: seq<byte>)
    requires start <= |b| && end <= |b| && !Seam(b[..start], b[start..]) && CR !in content
    requires SingleKind(StatsOf(Lines(b)))
    ensures SeamFree(b[..start], Expand(content, FileNewline(b).Bytes()), b[end..])
  {
    KindsOfFile(b);
    var s := StatsOf(Lines(b));
    assert FileNewline(b) == s.DefaultKind();
    hide Lines, StatsOf, Expand, SeamFree, Seam, FileNewline;
    if s.cr == 0 && s.crlf == 0 {
      ExpandToLf(content);
      NoCrNoSeam(b[..start], content, b[end..]);
    } else if s.lf == 0 && s.crlf == 0 {
      ExpandToCr(content);
      NoLfNoSeam(b[..start], Expand(content, [CR]), b[end..]);
    } else {
      ExpandEnd(content);
      CrLfCut(b, start);
      NoEndingCrNoSeam(b[..start], Expand(content, [CR, LF]), b[end..]);
    }
  }

  lemma KindsOfFile(b: seq<byte>)
    ensures var s := StatsOf(Lines(b));
      && (s.cr == 0 && s.crlf == 0 ==> CR !in b)
      && (s.lf == 0 && s.crlf == 0 ==> LF !in b)
      && (s.cr == 0 ==> forall k :: 0 <= k < |b| && b[k] == CR ==> k + 1 < |b| && b[k + 1] == LF)
  {
    var lines := Lines(b);
    var s := StatsOf(lines);
    if s.Count(Cr) == 0 { CountZero(lines, Cr); }
    if s.Count(CrLf) == 0 { CountZero(lines, CrLf); }
    if s.Count(Lf) == 0 { CountZero(lines, Lf); }
    NewlineBytes(b, 0);
  }

  /** The bytes before a table entry of a valid file are valid. */
  lemma ValidBefore(b: seq<byte>, e: Boundary)
    requires Valid(b) && e in Table(b)
    ensures e.file <= |b| && Valid(b[..e.file])
  {
    hide Table;
    var k :| 0 <= k < |Table(b)| && Table(b)[k] == e;
    TableEntry(b, k);
    TokensSplit(b, k);
    ValidTokenPrefix(b, k);
  }

  lemma {:induction false} ValidTokenPrefix(b: seq<byte>, k: nat)
    requires Valid(b) && k <= |FileTokens(b)|
    ensures WidthOf(FileTokens(b)[..k]) <= |b| && Valid(b[..WidthOf(FileTokens(b)[..k])])
    decreases k
  {
    hide ScalarLen, Valid, Step, FileTokens, WidthOf;
    if b == [] { EmptyTokens(); }
    if k == 0 {
      assert FileTokens(b)[..0] == [] && WidthOf([]) == 0 by { EmptyTokens(); }
      assert b[..0] == [];
      EmptyValid();
    } else {
      var w := Step(b).width;
      StepLeavesValid(b);
      StepIsValid(b);
      TokensHead(b, k);
      ValidTokenPrefix(b[w..], k - 1);
      var rest := WidthOf(FileTokens(b[w..])[..k - 1]);
      JoinValid(b, w, rest);
    }
  }

  lemma JoinValid(b: seq<byte>, w: nat, rest: nat)
    requires w + rest <= |b| && Valid(b[..w]) && Valid(b[w..][..rest])
    ensures Valid(b[..w + rest])
  {
    hide Valid;
    ValidConcat(b[..w], b[w..][..rest]);
    assert b[..w + rest] == b[..w] + b[w..][..rest];
  }

  lemma TokensHead(b: seq<byte>, k: nat)
    requires b != [] && 0 < k <= |FileTokens(b)|
    ensures k - 1 <= |FileTokens(b[Step(b).width..])|
    ensures WidthOf(FileTokens(b)[..k]) == Step(b).width + WidthOf(FileTokens(b[Step(b).width..])[..k - 1])
  {
    hide ScalarLen;
    var ts := FileTokens(b);
    assert ts[..k][0] == ts[0] && ts[..k][1..] == ts[1..][..k - 1];
  }

  lemma EmptyValid()
    ensures Valid([])
  {
  }

  lemma StepIsValid(b: seq<byte>)
    requires Valid(b) && b != []
    ensures Valid(b[..Step(b).width])
  {
    if b[0] == CR && |b| >= 2 && b[1] == LF {
      assert b[..2] == [CR, LF];
      NewlineValid(CrLf);
    } else {
      HeadValid(b);
    }
  }
}
