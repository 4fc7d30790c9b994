/**
  How the program builds the view: it splits the bytes into lines, decodes each
  line with or without invalid bytes, and collects the view and the table line
  by line. The result is the one-pass reading of `FileModel`.
 */
module FileLoading {
  import opened Utf8
  import opened FileModel

  datatype LineSlice = LineSlice(contentStart: nat, contentEnd: nat, newlineEnd: nat, kind: NewlineKind)

  datatype LineView = LineView(start: nat, end: nat, fullEnd: nat, text: seq<byte>, hasNewline: bool)

  // --- Splitting into lines -------------------------------------------------

  /** The first newline byte at or after `i`, or the end. */
  function NextNewline(b: seq<byte>, i: nat): (e: nat)
    requires i <= |b|
    ensures i <= e <= |b|
    ensures forall k :: i <= k < e ==> !IsNewline(b[k])
    ensures e < |b| ==> IsNewline(b[e])
    decreases |b| - i
  {
    if i == |b| || IsNewline(b[i]) then i else NextNewline(b, i + 1)
  }

  function LineAt(b: seq<byte>, i: nat): (l: LineSlice)
    requires i < |b|
    ensures l.contentStart == i <= l.contentEnd <= l.newlineEnd <= |b| && i < l.newlineEnd
    ensures l.kind == NoNewline <==> l.newlineEnd == l.contentEnd
    ensures l.kind == NoNewline ==> l.newlineEnd == |b|
  {
    var e := NextNewline(b, i);
    if e == |b| then LineSlice(i, e, e, NoNewline)
    else if b[e] == LF then LineSlice(i, e, e + 1, Lf)
    else if e + 1 < |b| && b[e + 1] == LF then LineSlice(i, e, e + 2, CrLf)
    else LineSlice(i, e, e + 1, Cr)
  }

  function LinesFrom(b: seq<byte>, i: nat): seq<LineSlice>
    requires i <= |b|
    decreases |b| - i
  {
    if i == |b| then [] else [LineAt(b, i)] + LinesFrom(b, LineAt(b, i).newlineEnd)
  }

  function Lines(b: seq<byte>): seq<LineSlice> {
    if b == [] then [LineSlice(0, 0, 0, NoNewline)] else LinesFrom(b, 0)
  }

  function StatsOf(lines: seq<LineSlice>): NewlineStats {
    if lines == [] then NewlineStats(0, 0, 0)
    else StatsOf(lines[..|lines| - 1]).Record(lines[|lines| - 1].kind)
  }

  /** Scans one line: its content, then CRLF, CR or LF, if any. */
  method ScanLine(b: seq<byte>, from: nat) returns (line: LineSlice)
    requires from < |b|
    ensures line == LineAt(b, from)
  {
    var idx := NextNewline(b, from);
    var contentEnd := idx;
    var kind := NoNewline;
    if idx < |b| {
      if b[idx] == CR {
        idx := idx + 1;
        if idx < |b| && b[idx] == LF {
          idx := idx + 1;
          kind := CrLf;
        } else {
          kind := Cr;
        }
      } else {
        idx := idx + 1;
        kind := Lf;
      }
    }
    line := LineSlice(from, contentEnd, idx, kind);
  }

  lemma Snoc<T>(a: seq<T>, x: T, b: seq<T>)
    ensures a + ([x] + b) == (a + [x]) + b
  {
  }

  method SplitLines(b: seq<byte>) returns (lines: seq<LineSlice>, stats: NewlineStats)
    ensures lines == Lines(b) && stats == StatsOf(lines)
  {
    lines, stats := [], NewlineStats(0, 0, 0);
    var idx := 0;
    while idx < |b|
      invariant idx <= |b|
      invariant LinesFrom(b, 0) == lines + LinesFrom(b, idx)
      invariant stats == StatsOf(lines)
      invariant idx > 0 ==> lines != []
      decreases |b| - idx
    {
      var line := ScanLine(b, idx);
      Snoc(lines, line, LinesFrom(b, line.newlineEnd));
      stats := stats.Record(line.kind);
      lines := lines + [line];
      idx := line.newlineEnd;
    }
    if lines == [] {
      lines := [LineSlice(0, 0, 0, NoNewline)];
      assert lines[..0] == [];
    }
  }

  // --- Decoding a line ------------------------------------------------------

  /** Byte offsets of the tokens, and the end. */
  function Offsets(ts: seq<Token>, f: nat): seq<nat> {
    if ts == [] then [f] else [f] + Offsets(ts[1..], f + ts[0].width)
  }

  function TextOffsets(ts: seq<Token>, c: nat): seq<nat> {
    if ts == [] then [c] else [c] + TextOffsets(ts[1..], c + |ts[0].text|)
  }

  lemma {:induction false} OffsetsShape(ts: seq<Token>, c: nat, f: nat)
    ensures |Offsets(ts, f)| == |TextOffsets(ts, c)| == |ts| + 1
    ensures |Sums(ts, c, f)| == |ts|
    ensures forall k :: 0 <= k < |ts| ==>
      Sums(ts, c, f)[k] == Boundary(TextOffsets(ts, c)[k + 1], Offsets(ts, f)[k + 1])
  {
    SumsLength(ts, c, f);
    if ts != [] {
      var c1, f1 := c + |ts[0].text|, f + ts[0].width;
      OffsetsShape(ts[1..], c1, f1);
      assert TextOffsets(ts[1..], c1)[0] == c1 && Offsets(ts[1..], f1)[0] == f1;
      forall k | 0 <= k < |ts|
        ensures Sums(ts, c, f)[k] == Boundary(TextOffsets(ts, c)[k + 1], Offsets(ts, f)[k + 1])
      {
        if k > 0 { assert Sums(ts, c, f)[k] == Sums(ts[1..], c1, f1)[k - 1]; }
      }
    }
  }

  lemma ScalarUnfold(b: seq<byte>, i: nat)
    requires i < |b|
    ensures var w := ScalarStep(b[i..]).width;
      && i + w <= |b|
      && ScalarTokens(b[i..]) == [ScalarStep(b[i..])] + ScalarTokens(b[i + w..])
      && Offsets(ScalarTokens(b[i..]), i) == [i] + Offsets(ScalarTokens(b[i + w..]), i + w)
      && TextOf(ScalarTokens(b[i..])) == ScalarStep(b[i..]).text + TextOf(ScalarTokens(b[i + w..]))
  {
    var w := ScalarStep(b[i..]).width;
    assert b[i..][w..] == b[i + w..];
    var ts := ScalarTokens(b[i..]);
    assert ts[1..] == ScalarTokens(b[i + w..]);
  }

  /** Where the characters of a valid text start, and its end. */
  method CharIndices(text: seq<byte>) returns (offsets: seq<nat>)
    requires Valid(text)
    ensures offsets == Offsets(ScalarTokens(text), 0)
  {
    hide ScalarLen, ScalarTokens, Offsets;
    offsets := [];
    var i := 0;
    assert text[0..] == text;
    while i < |text|
      invariant i <= |text| && Valid(text[i..])
      invariant Offsets(ScalarTokens(text), 0) == offsets + Offsets(ScalarTokens(text[i..]), i)
      decreases |text| - i
    {
      ScalarUnfold(text, i);
      var n := ScalarLen(text[i..]);
      Snoc(offsets, i, Offsets(ScalarTokens(text[i + n..]), i + n));
      offsets := offsets + [i];
      assert text[i..][n..] == text[i + n..];
      i := i + n;
    }
    assert Offsets(ScalarTokens([]), i) == [i] by { NoTokens(i); }
    assert text[i..] == [];
    offsets := offsets + [|text|];
  }

  lemma NoTokens(i: nat)
    ensures ScalarTokens([]) == [] && Offsets(ScalarTokens([]), i) == [i] && TextOf(ScalarTokens([])) == []
  {
  }

  lemma {:induction false} ValidTokens(b: seq<byte>)
    requires Valid(b)
    ensures TextOf(ScalarTokens(b)) == b
    decreases |b|
  {
    if b != [] {
      ValidTokens(b[ScalarLen(b)..]);
      assert b == b[..ScalarLen(b)] + b[ScalarLen(b)..];
    }
  }

  /** The characters of a decoded line start where its tokens' texts start. */
  lemma {:induction false} DecodedStarts(ts: seq<Token>, c: nat)
    requires OneScalarEach(ts)
    ensures Offsets(ScalarTokens(TextOf(ts)), c) == TextOffsets(ts, c)
  {
    if ts != [] {
      var text, n := TextOf(ts), |ts[0].text|;
      assert ts[0] in ts;
      assert text[..n] == ts[0].text && text[n..] == TextOf(ts[1..]);
      ScalarLenPrefix(ts[0].text, text);
      hide ScalarLen;
      DecodedStarts(ts[1..], c + n);
    }
  }

  function LeadWidth(x: byte): nat {
    if x <= 0x7F then 1
    else if 0xC2 <= x <= 0xDF then 2
    else if 0xE0 <= x <= 0xEF then 3
    else if 0xF0 <= x <= 0xF4 then 4
    else 0
  }

  /** A lead byte promises a width; the scalar is there exactly when that many bytes are valid by themselves. */
  lemma LeadPromises(b: seq<byte>)
    requires b != []
    ensures var w := LeadWidth(b[0]);
      ScalarLen(b) > 0 <==> w > 0 && w <= |b| && Valid(b[..w])
    ensures ScalarLen(b) > 0 ==> ScalarLen(b) == LeadWidth(b[0])
  {
    var w := LeadWidth(b[0]);
    if 0 < w <= |b| {
      var s := b[..w];
      if ScalarLen(b) > 0 {
        assert s[w..] == [];
      }
      if ScalarLen(s) > 0 { ScalarLenPrefix(s, b); }
    }
  }

  /** One step of the fallback: a byte, a scalar of the promised width, or a replacement. */
  method DecodeStep(b: seq<byte>, i: nat) returns (step: Token)
    requires i < |b|
    ensures step == ScalarStep(b[i..])
  {
    LeadPromises(b[i..]);
    var width := LeadWidth(b[i]);
    if width == 1 {
      assert b[i..][..1] == [b[i]];
      return Token(1, [b[i]]);
    }
    if width == 0 || i + width > |b| {
      return Token(1, REPLACEMENT);
    }
    var slice := b[i..i + width];
    assert slice == b[i..][..width];
    step := if Valid(slice) then Token(width, slice) else Token(1, REPLACEMENT);
  }

  /** Decodes a line; an invalid line goes byte by byte with replacement characters. */
  method DecodeLine(b: seq<byte>) returns (text: seq<byte>, offsets: seq<nat>)
    ensures text == TextOf(ScalarTokens(b)) && offsets == Offsets(ScalarTokens(b), 0)
  {
    if Valid(b) {
      offsets := CharIndices(b);
      ValidTokens(b);
      text := b;
    } else {
      text, offsets := DecodeInvalidLine(b);
    }
  }

  method DecodeInvalidLine(b: seq<byte>) returns (text: seq<byte>, offsets: seq<nat>)
    ensures text == TextOf(ScalarTokens(b)) && offsets == Offsets(ScalarTokens(b), 0)
  {
    hide ScalarLen, ScalarStep, ScalarTokens, Offsets, TextOf;
    text, offsets := [], [];
    var i := 0;
    assert b[0..] == b;
    while i < |b|
      invariant i <= |b|
      invariant TextOf(ScalarTokens(b)) == text + TextOf(ScalarTokens(b[i..]))
      invariant Offsets(ScalarTokens(b), 0) == offsets + Offsets(ScalarTokens(b[i..]), i)
      decreases |b| - i
    {
      ScalarUnfold(b, i);
      var step := DecodeStep(b, i);
      Snoc(offsets, i, Offsets(ScalarTokens(b[i + step.width..]), i + step.width));
      offsets := offsets + [i];
      text := text + step.text;
      i := i + step.width;
    }
    assert b[i..] == [];
    NoTokens(i);
    offsets := offsets + [|b|];
  }

  // --- Lines and tokens -----------------------------------------------------

  /** The slice lies in the file, and it has a newline exactly when it has a kind. */
  predicate Fits(b: seq<byte>, l: LineSlice) {
    && l.contentStart <= l.contentEnd <= l.newlineEnd <= |b|
    && (l.kind == NoNewline <==> l.newlineEnd == l.contentEnd)
  }

  function ContentOf(b: seq<byte>, l: LineSlice): seq<byte> {
    if Fits(b, l) then b[l.contentStart..l.contentEnd] else []
  }

  function LineTokens(b: seq<byte>, l: LineSlice): seq<Token> {
    ScalarTokens(ContentOf(b, l))
    + if l.kind == NoNewline || !Fits(b, l) then [] else [Token(l.newlineEnd - l.contentEnd, [LF])]
  }

  /** A run without newlines is read scalar by scalar, whatever newline follows. */
  lemma {:induction false} ContentTokens(a: seq<byte>, rest: seq<byte>)
    requires forall i :: 0 <= i < |a| ==> !IsNewline(a[i])
    requires rest == [] || IsNewline(rest[0])
    ensures FileTokens(a + rest) == ScalarTokens(a) + FileTokens(rest)
    decreases |a|
  {
    hide ScalarLen;
    if a == [] {
      assert a + rest == rest;
    } else {
      ScalarLenSplit(a, rest);
      var w := ScalarStep(a).width;
      assert (a + rest)[w..] == a[w..] + rest;
      assert (a + rest)[..w] == a[..w] && (a + rest)[0] == a[0];
      assert Step(a + rest) == ScalarStep(a);
      ContentTokens(a[w..], rest);
      assert FileTokens(a + rest)[1..] == FileTokens(a[w..] + rest);
    }
  }

  lemma NewlineStep(b: seq<byte>, i: nat)
    requires i < |b| && LineAt(b, i).kind != NoNewline
    ensures var l := LineAt(b, i);
      l.contentEnd < |b| && Step(b[l.contentEnd..]) == Token(l.newlineEnd - l.contentEnd, [LF])
  {
  }

  /** The tokens of the file from a line on are those of the line and then of the rest. */
  lemma LineThenRest(b: seq<byte>, i: nat)
    requires i < |b|
    ensures FileTokens(b[i..]) == LineTokens(b, LineAt(b, i)) + FileTokens(b[LineAt(b, i).newlineEnd..])
  {
    hide ScalarLen, ScalarStep, NextNewline;
    var l := LineAt(b, i);
    var content, rest := b[i..l.contentEnd], b[l.contentEnd..];
    assert b[i..] == content + rest;
    ContentTokens(content, rest);
    if l.kind == NoNewline {
      assert rest == [];
      assert LineTokens(b, l) == ScalarTokens(content);
    } else {
      var w := l.newlineEnd - l.contentEnd;
      assert rest[w..] == b[l.newlineEnd..];
      assert Step(rest) == Token(w, [LF]) by { NewlineStep(b, i); }
      assert FileTokens(rest) == [Token(w, [LF])] + FileTokens(b[l.newlineEnd..]);
    }
  }

  // --- Collecting the view --------------------------------------------------

  /** The view of a line: where its text starts and ends in the whole. */
  function ViewOf(b: seq<byte>, l: LineSlice, c: nat): LineView {
    var text := TextOf(ScalarTokens(ContentOf(b, l)));
    var newline := l.kind != NoNewline;
    LineView(c, c + |text|, c + |text| + if newline then 1 else 0, text, newline)
  }

  function Views(b: seq<byte>, lines: seq<LineSlice>, c: nat): seq<LineView> {
    if lines == [] then []
    else [ViewOf(b, lines[0], c)] + Views(b, lines[1..], ViewOf(b, lines[0], c).fullEnd)
  }

  datatype CanonicalData = CanonicalData(text: seq<byte>, views: seq<LineView>, boundaries: seq<Boundary>)

  /** One boundary after each character of a line, in both coordinates. */
  method CharacterBoundaries(canonical: seq<nat>, file: seq<nat>, c: nat, f: nat, ghost ts: seq<Token>)
    returns (added: seq<Boundary>)
    requires canonical == TextOffsets(ts, 0) && file == Offsets(ts, 0)
    ensures added == Sums(ts, c, f)
  {
    OffsetsShape(ts, 0, 0);
    SumsShift(ts, c, f);
    hide TextOffsets, Offsets, Sums;
    added := [];
    for k := 1 to |file|
      invariant added == Sums(ts, c, f)[..k - 1]
    {
      assert Sums(ts, c, f)[k - 1] == Boundary(c + canonical[k], f + file[k]);
      added := added + [Boundary(c + canonical[k], f + file[k])];
    }
  }

  /** What a line's newline adds to the text and the boundaries of its content. */
  lemma NewlineAdds(b: seq<byte>, l: LineSlice, c: nat)
    requires Fits(b, l)
    ensures var ts := ScalarTokens(ContentOf(b, l));
      && TextOf(LineTokens(b, l)) == TextOf(ts) + (if l.kind == NoNewline then [] else [LF])
      && WidthOf(LineTokens(b, l)) == l.newlineEnd - l.contentStart
      && Sums(LineTokens(b, l), c, l.contentStart) == Sums(ts, c, l.contentStart)
         + (if l.kind == NoNewline then [] else [Boundary(c + |TextOf(ts)| + 1, l.newlineEnd)])
  {
    hide ScalarTokens;
    var ts := ScalarTokens(ContentOf(b, l));
    ScalarTokensAreScalars(ContentOf(b, l));
    if l.kind == NoNewline {
      assert LineTokens(b, l) == ts;
    } else {
      var newline := [Token(l.newlineEnd - l.contentEnd, [LF])];
      TextConcat(ts, newline);
      SumsConcat(ts, newline, c, l.contentStart);
      assert newline[1..] == [];
    }
  }

  /** The boundaries one line adds: one after each of its characters, one after its newline. */
  method AppendLine(b: seq<byte>, line: LineSlice, text0: seq<byte>, boundaries0: seq<Boundary>)
    returns (text: seq<byte>, boundaries: seq<Boundary>, view: LineView)
    requires Fits(b, line)
    ensures var ts := LineTokens(b, line);
      text == text0 + TextOf(ts) && boundaries == boundaries0 + Sums(ts, |text0|, line.contentStart)
    ensures view == ViewOf(b, line, |text0|) && view.fullEnd == |text|
  {
    hide ScalarTokens, TextOf, Sums, Offsets, TextOffsets, LineTokens;
    var content := b[line.contentStart..line.contentEnd];
    var lineText, fileBoundaries := DecodeLine(content);
    ghost var ts := ScalarTokens(content);
    ScalarTokensAreScalars(content);
    TextValid(ts);
    var canonicalBoundaries := CharIndices(lineText);
    DecodedStarts(ts, 0);
    NewlineAdds(b, line, |text0|);
    var added := CharacterBoundaries(canonicalBoundaries, fileBoundaries, |text0|, line.contentStart, ts);
    text, boundaries := text0 + lineText, boundaries0 + added;
    var hasNewline := line.kind != NoNewline;
    view := LineView(|text0|, |text|, if hasNewline then |text| + 1 else |text|, lineText, hasNewline);
    if hasNewline {
      text := text + [LF];
      boundaries := boundaries + [Boundary(|text|, line.newlineEnd)];
    }
  }

  lemma {:induction false} SumsShift(ts: seq<Token>, c: nat, f: nat)
    ensures |Sums(ts, c, f)| == |Sums(ts, 0, 0)| == |ts|
    ensures forall k :: 0 <= k < |ts| ==>
      Sums(ts, c, f)[k] == Boundary(c + Sums(ts, 0, 0)[k].canonical, f + Sums(ts, 0, 0)[k].file)
  {
    SumsLength(ts, c, f);
    SumsLength(ts, 0, 0);
    forall k | 0 <= k < |ts|
      ensures Sums(ts, c, f)[k] == Boundary(c + Sums(ts, 0, 0)[k].canonical, f + Sums(ts, 0, 0)[k].file)
    {
      SumsAt(ts, c, f, k);
      SumsAt(ts, 0, 0, k);
    }
  }

  lemma {:induction false} ViewsSnoc(b: seq<byte>, lines: seq<LineSlice>, l: LineSlice, c: nat, views: seq<LineView>,
                                     e: nat)
    requires views == Views(b, lines, c) && e == if views == [] then c else views[|views| - 1].fullEnd
    ensures Views(b, lines + [l], c) == views + [ViewOf(b, l, e)]
  {
    hide ViewOf;
    if lines == [] {
      assert lines + [l] == [l];
    } else {
      assert (lines + [l])[1..] == lines[1..] + [l];
      ViewsSnoc(b, lines[1..], l, views[0].fullEnd, views[1..], e);
    }
  }

  /** The lines continue the reading of the file at byte `at` and exhaust it. */
  ghost predicate Continues(b: seq<byte>, lines: seq<LineSlice>, at: nat)
    decreases |lines|
  {
    && at <= |b|
    && if lines == [] then at == |b|
       else
         && lines[0].contentStart == at && Fits(b, lines[0])
         && FileTokens(b[at..]) == LineTokens(b, lines[0]) + FileTokens(b[lines[0].newlineEnd..])
         && Continues(b, lines[1..], lines[0].newlineEnd)
  }

  lemma {:induction false} LinesContinue(b: seq<byte>, i: nat)
    requires i <= |b|
    ensures Continues(b, LinesFrom(b, i), i)
    decreases |b| - i
  {
    hide FileTokens, LineTokens, NextNewline;
    if i < |b| {
      LineThenRest(b, i);
      LinesContinue(b, LineAt(b, i).newlineEnd);
      assert LinesFrom(b, i)[1..] == LinesFrom(b, LineAt(b, i).newlineEnd);
    }
  }

  lemma AllLinesContinue(b: seq<byte>)
    ensures Continues(b, Lines(b), 0)
  {
    if b == [] {
      assert b[0..] == [] && Lines(b)[1..] == [];
    } else {
      LinesContinue(b, 0);
    }
  }

  /** The file is read up to byte `at`: `done` are its tokens so far, `text` and `boundaries` what they give. */
  ghost predicate ReadUpTo(b: seq<byte>, at: nat, done: seq<Token>, text: seq<byte>, boundaries: seq<Boundary>) {
    && at <= |b|
    && FileTokens(b) == done + FileTokens(b[at..])
    && text == TextOf(done) && WidthOf(done) == at
    && boundaries == [Boundary(0, 0)] + Sums(done, 0, 0)
  }

  lemma ReadLine(b: seq<byte>, lines: seq<LineSlice>, at: nat, done: seq<Token>, text: seq<byte>,
                 boundaries: seq<Boundary>)
    requires ReadUpTo(b, at, done, text, boundaries) && Continues(b, lines, at) && lines != []
    ensures var l := lines[0];
      && Fits(b, l) && l.contentStart == at && Continues(b, lines[1..], l.newlineEnd)
      && var ts := LineTokens(b, l);
         ReadUpTo(b, l.newlineEnd, done + ts, text + TextOf(ts), boundaries + Sums(ts, |text|, at))
  {
    hide FileTokens, LineTokens, TextOf, WidthOf, Sums;
    var l := lines[0];
    var ts := LineTokens(b, l);
    NewlineAdds(b, l, 0);
    TextConcat(done, ts);
    SumsConcat(done, ts, 0, 0);
    assert done + (ts + FileTokens(b[l.newlineEnd..])) == done + ts + FileTokens(b[l.newlineEnd..]);
  }

  method FromBytes(b: seq<byte>, lines: seq<LineSlice>) returns (data: CanonicalData)
    requires lines == Lines(b)
    ensures data == CanonicalData(CanonicalText(b), Views(b, lines, 0), Table(b))
  {
    AllLinesContinue(b);
    var text: seq<byte>, views: seq<LineView> := [], [];
    var boundaries := [Boundary(0, 0)];
    ghost var at: nat, done: seq<Token> := 0, [];
    ghost var seen: seq<LineSlice>, rest := [], lines;
    assert ReadUpTo(b, 0, [], [], [Boundary(0, 0)]) by { assert b[0..] == b; }
    assert views == Views(b, seen, 0);
    hide *;
    for k := 0 to |lines|
      invariant at <= |b| && Continues(b, rest, at)
      invariant lines == seen + rest && |seen| == k
      invariant ReadUpTo(b, at, done, text, boundaries)
      invariant views == Views(b, seen, 0)
      invariant |text| == if views == [] then 0 else views[|views| - 1].fullEnd
    {
      var line := lines[k];
      assert line == rest[0] && rest == [line] + rest[1..];
      Snoc(seen, line, rest[1..]);
      ReadLine(b, rest, at, done, text, boundaries);
      ViewsSnoc(b, seen, line, 0, views, |text|);
      var view;
      text, boundaries, view := AppendLine(b, line, text, boundaries);
      views := views + [view];
      at, done := line.newlineEnd, done + LineTokens(b, line);
      seen, rest := seen + [line], rest[1..];
    }
    assert rest == [] && seen == lines;
    AllRead(b, at, done, text, boundaries);
    data := CanonicalData(text, views, boundaries);
  }

  lemma AllRead(b: seq<byte>, at: nat, done: seq<Token>, text: seq<byte>, boundaries: seq<Boundary>)
    requires at <= |b| && Continues(b, [], at) && ReadUpTo(b, at, done, text, boundaries)
    ensures text == CanonicalText(b) && boundaries == Table(b)
  {
    assert b[at..] == [];
    assert done + FileTokens([]) == done;
  }

  lemma EmptyTokens()
    ensures TextOf([]) == [] && WidthOf([]) == 0 && Sums([], 0, 0) == [] && FileTokens([]) == []
  {
  }

  // --- The views ------------------------------------------------------------

  /** The views lie end to end over the text and each shows the text of its range. */
  ghost predicate Tiles(views: seq<LineView>, text: seq<byte>, c: nat)
    decreases |views|
  {
    && c <= |text|
    && if views == [] then c == |text|
       else
         var v := views[0];
         && v.start == c <= v.end <= v.fullEnd <= |text|
         && text[v.start..v.end] == v.text
         && (if v.hasNewline then v.fullEnd == v.end + 1 && text[v.end] == LF else v.fullEnd == v.end)
         && Tiles(views[1..], text, v.fullEnd)
  }

  lemma ViewInPlace(b: seq<byte>, l: LineSlice, head: seq<byte>, tail: seq<byte>)
    requires Fits(b, l)
    ensures var v, text := ViewOf(b, l, |head|), head + TextOf(LineTokens(b, l)) + tail;
      && v.start == |head| <= v.end <= v.fullEnd == |head + TextOf(LineTokens(b, l))|
      && text[v.start..v.end] == v.text
      && (if v.hasNewline then v.fullEnd == v.end + 1 && text[v.end] == LF else v.fullEnd == v.end)
  {
    NewlineAdds(b, l, 0);
    hide LineTokens, ScalarTokens, TextOf;
  }

  lemma ContinuesHead(b: seq<byte>, lines: seq<LineSlice>, at: nat)
    requires Continues(b, lines, at) && lines != []
    ensures var l := lines[0];
      && Fits(b, l) && Continues(b, lines[1..], l.newlineEnd)
      && FileTokens(b[at..]) == LineTokens(b, l) + FileTokens(b[l.newlineEnd..])
  {
    hide FileTokens, LineTokens;
  }

  lemma ViewsHead(b: seq<byte>, lines: seq<LineSlice>, c: nat)
    requires lines != []
    ensures Views(b, lines, c) != [] && Views(b, lines, c)[0] == ViewOf(b, lines[0], c)
    ensures Views(b, lines, c)[1..] == Views(b, lines[1..], ViewOf(b, lines[0], c).fullEnd)
  {
    hide ViewOf;
  }

  lemma {:induction false} ViewsTile(b: seq<byte>, lines: seq<LineSlice>, at: nat, head: seq<byte>)
    requires Continues(b, lines, at)
    ensures at <= |b| && Tiles(Views(b, lines, |head|), head + TextOf(FileTokens(b[at..])), |head|)
    decreases |lines|
  {
    hide FileTokens, LineTokens, ScalarTokens, TextOf, ViewOf;
    if lines == [] {
      assert b[at..] == [];
      EmptyTokens();
    } else {
      ContinuesHead(b, lines, at);
      ViewsHead(b, lines, |head|);
      hide Continues, Views;
      var l := lines[0];
      var ts, rest := LineTokens(b, l), FileTokens(b[l.newlineEnd..]);
      TextConcat(ts, rest);
      ViewInPlace(b, l, head, TextOf(rest));
      ViewsTile(b, lines[1..], l.newlineEnd, head + TextOf(ts));
      assert head + (TextOf(ts) + TextOf(rest)) == head + TextOf(ts) + TextOf(rest);
    }
  }

  lemma AllViewsTile(b: seq<byte>)
    ensures Tiles(Views(b, Lines(b), 0), CanonicalText(b), 0) && Views(b, Lines(b), 0) != []
  {
    AllLinesContinue(b);
    ViewsTile(b, Lines(b), 0, []);
    assert b[0..] == b;
    assert [] + CanonicalText(b) == CanonicalText(b);
  }
}
