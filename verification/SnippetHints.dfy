/**
  What a line hint means, in terms of the text alone: lines are counted by their LF.
  A hinted edit is applied to the first occurrence that lies within the hinted lines,
  and fails for want of a match exactly when there is none.
 */
module SnippetHints {
  import opened Wrappers
  import opened Utf8
  import opened FileModel
  import opened FileLoading
  import opened SnippetEdit
  import opened SnippetApply

  function LfCount(text: seq<byte>): nat {
    if text == [] then 0 else LfCount(text[..|text| - 1]) + if text[|text| - 1] == LF then 1 else 0
  }

  /** The line, counted from one, of the byte at `p`; an LF belongs to the line it ends. */
  function LineNumber(text: seq<byte>, p: nat): nat
    requires p <= |text|
  {
    1 + LfCount(text[..p])
  }

  /** A text without its last LF has one more line, and the empty text has one. */
  function LineCount(text: seq<byte>): nat {
    LfCount(text) + if text == [] || text[|text| - 1] != LF then 1 else 0
  }

  /** The needle stands at `k`, its first byte on line `first` or later, its last on line `last` or earlier. */
  predicate OccursWithin(text: seq<byte>, needle: seq<byte>, k: nat, first: nat, last: nat) {
    && needle != [] && OccursAt(text, needle, k)
    && first <= LineNumber(text, k) && LineNumber(text, k + |needle| - 1) <= last
  }

  function FirstLine(hint: Option<MatchHint>): nat {
    if hint.Some? && hint.value.startLine.Some? then hint.value.startLine.value else 1
  }

  function LastLine(hint: Option<MatchHint>, text: seq<byte>): nat {
    if hint.Some? && hint.value.endLine.Some? then hint.value.endLine.value else LineCount(text)
  }

  predicate HintFits(hint: Option<MatchHint>, text: seq<byte>) {
    hint.None? || 1 <= FirstLine(hint) <= LastLine(hint, text) <= LineCount(text)
  }

  // --- The views are the lines ----------------------------------------------

  ghost predicate LineViews(views: seq<LineView>) {
    forall k :: 0 <= k < |views| ==> LF !in views[k].text && (k < |views| - 1 ==> views[k].hasNewline)
  }

  lemma {:induction false} NoLfShown(b: seq<byte>)
    requires LF !in b
    ensures LF !in TextOf(ScalarTokens(b)) && (b != [] ==> TextOf(ScalarTokens(b)) != [])
    decreases |b|
  {
    if b != [] {
      hide ScalarLen;
      var t := ScalarStep(b);
      NoLfShown(b[t.width..]);
      assert LF !in t.text;
    }
  }

  lemma {:induction false} ViewsOfLines(b: seq<byte>, i: nat, c: nat)
    requires i <= |b|
    ensures LineViews(Views(b, LinesFrom(b, i), c))
    decreases |b| - i
  {
    if i < |b| {
      var l := LineAt(b, i);
      ContentHasNoLf(b, i);
      hide LineAt, ViewOf;
      var v, rest := ViewOf(b, l, c), LinesFrom(b, l.newlineEnd);
      ViewsOfLines(b, l.newlineEnd, v.fullEnd);
      assert LinesFrom(b, i)[1..] == rest;
      var views := Views(b, rest, v.fullEnd);
      assert Views(b, LinesFrom(b, i), c) == [v] + views;
      if l.kind == NoNewline { assert rest == []; }
      assert views != [] ==> v.hasNewline;
      MoreLines(v, views);
    }
  }

  lemma ContentHasNoLf(b: seq<byte>, i: nat)
    requires i < |b|
    ensures var l := LineAt(b, i);
      forall c :: LF !in ViewOf(b, l, c).text && (ViewOf(b, l, c).hasNewline <==> l.kind != NoNewline)
  {
    var content := ContentOf(b, LineAt(b, i));
    assert forall k :: 0 <= k < |content| ==> content[k] == b[i + k];
    hide NextNewline;
    NoLfShown(content);
  }

  lemma MoreLines(v: LineView, rest: seq<LineView>)
    requires LineViews(rest) && LF !in v.text && (rest != [] ==> v.hasNewline)
    ensures LineViews([v] + rest)
  {
    var views := [v] + rest;
    forall k | 0 <= k < |views|
      ensures LF !in views[k].text && (k < |views| - 1 ==> views[k].hasNewline)
    {
      if k > 0 { assert views[k] == rest[k - 1]; }
    }
  }

  lemma AllViewsAreLines(b: seq<byte>)
    ensures LineViews(Views(b, Lines(b), 0))
  {
    if b == [] {
      var l := LineSlice(0, 0, 0, NoNewline);
      assert Views(b, [l], 0) == [ViewOf(b, l, 0)];
    } else {
      ViewsOfLines(b, 0, 0);
    }
  }

  // --- Counting -------------------------------------------------------------

  lemma {:induction false} CountConcat(a: seq<byte>, b: seq<byte>)
    ensures LfCount(a + b) == LfCount(a) + LfCount(b)
  {
    if b == [] {
      assert a + b == a;
    } else {
      assert (a + b)[..|a + b| - 1] == a + b[..|b| - 1];
      CountConcat(a, b[..|b| - 1]);
    }
  }

  lemma {:induction false} CountNone(a: seq<byte>)
    requires LF !in a
    ensures LfCount(a) == 0
  {
    if a != [] { CountNone(a[..|a| - 1]); }
  }

  lemma CountGrows(text: seq<byte>, p: nat, q: nat)
    requires p <= q <= |text|
    ensures LfCount(text[..p]) <= LfCount(text[..q])
  {
    assert text[..q] == text[..p] + text[p..q];
    CountConcat(text[..p], text[p..q]);
  }

  /** The LF before each view number as many as the views before it, and it holds none but its last byte. */
  lemma {:induction false} CountAtView(views: seq<LineView>, text: seq<byte>, k: nat)
    requires Tiles(views, text, 0) && LineViews(views) && k < |views|
    ensures views[k].start <= views[k].end <= views[k].fullEnd <= |text|
    ensures LfCount(text[..views[k].start]) == LfCount(text[..views[k].end]) == k
    ensures LfCount(text[..views[k].fullEnd]) == k + if views[k].hasNewline then 1 else 0
    ensures views[k].fullEnd == views[k].end + if views[k].hasNewline then 1 else 0
    decreases k
  {
    hide Tiles;
    TilesFromStart(views, text, 0, k);
    if k == 0 {
      assert text[..0] == [];
    } else {
      CountAtView(views, text, k - 1);
      TilesFromStart(views, text, 0, k - 1);
      PlainView(views, k - 1);
    }
    ViewShown(views, text, 0, k);
    hide LfCount, LineViews;
    assert LF !in views[k].text by { PlainView(views, k); }
    CountInView(text, views[k]);
  }

  lemma PlainView(views: seq<LineView>, k: nat)
    requires LineViews(views) && k < |views|
    ensures LF !in views[k].text && (k < |views| - 1 ==> views[k].hasNewline)
  {
  }

  lemma CountInView(text: seq<byte>, v: LineView)
    requires v.start <= v.end <= v.fullEnd <= |text| && text[v.start..v.end] == v.text && LF !in v.text
    requires if v.hasNewline then v.fullEnd == v.end + 1 && text[v.end] == LF else v.fullEnd == v.end
    ensures LfCount(text[..v.end]) == LfCount(text[..v.start])
    ensures LfCount(text[..v.fullEnd]) == LfCount(text[..v.end]) + if v.hasNewline then 1 else 0
  {
    hide LfCount;
    assert text[..v.end] == text[..v.start] + v.text;
    CountConcat(text[..v.start], v.text);
    CountNone(v.text);
    if v.hasNewline {
      assert text[..v.fullEnd] == text[..v.end] + [LF];
      CountOneLf(text[..v.end]);
    }
  }

  lemma CountOneLf(a: seq<byte>)
    ensures LfCount(a + [LF]) == LfCount(a) + 1
  {
    assert (a + [LF])[..|a|] == a;
  }

  lemma {:induction false} ViewShown(views: seq<LineView>, text: seq<byte>, c: nat, k: nat)
    requires Tiles(views, text, c) && k < |views|
    ensures var v := views[k];
      && v.start <= v.end <= v.fullEnd <= |text| && text[v.start..v.end] == v.text
      && (if v.hasNewline then v.fullEnd == v.end + 1 && text[v.end] == LF else v.fullEnd == v.end)
    decreases |views|
  {
    if k > 0 { ViewShown(views[1..], text, views[0].fullEnd, k - 1); }
  }

  /** There are as many views as lines. */
  lemma ViewCount(b: seq<byte>)
    ensures |Views(b, Lines(b), 0)| == LineCount(CanonicalText(b))
  {
    var views, text := Views(b, Lines(b), 0), CanonicalText(b);
    AllViewsTile(b);
    AllViewsAreLines(b);
    LastViewEnds(b);
    hide Views, Lines, CanonicalText, Tiles, LineViews, LfCount;
    var n := |views| - 1;
    CountAtView(views, text, n);
    ViewShown(views, text, 0, n);
    TilesFromStart(views, text, 0, n);
    CountAtEnd(text, views[n], n);
  }

  lemma CountAtEnd(text: seq<byte>, v: LineView, n: nat)
    requires v.start <= v.end <= v.fullEnd == |text| && text[v.start..v.end] == v.text && LF !in v.text
    requires if v.hasNewline then v.fullEnd == v.end + 1 && text[v.end] == LF else v.fullEnd == v.end
    requires LfCount(text[..v.fullEnd]) == n + if v.hasNewline then 1 else 0
    requires !v.hasNewline && v.text == [] ==> text == []
    ensures LineCount(text) == n + 1
  {
    hide LfCount;
    assert text[..|text|] == text;
    if !v.hasNewline && v.text != [] { assert text[|text| - 1] in v.text; }
  }

  /** A last line without a newline shows something, unless the file is empty. */
  lemma LastViewEnds(b: seq<byte>)
    ensures var views := Views(b, Lines(b), 0);
      views != [] && LF !in views[|views| - 1].text
      && (!views[|views| - 1].hasNewline && views[|views| - 1].text == [] ==> CanonicalText(b) == [])
  {
    AllViewsAreLines(b);
    AllViewsTile(b);
    if b == [] {
      EmptyTokens();
    } else {
      LastShows(b, 0, 0);
    }
  }

  lemma {:induction false} LastShows(b: seq<byte>, i: nat, c: nat)
    requires i < |b|
    ensures var views := Views(b, LinesFrom(b, i), c);
      views != [] && (!views[|views| - 1].hasNewline ==> views[|views| - 1].text != [])
    decreases |b| - i
  {
    var l := LineAt(b, i);
    LineShows(b, i);
    hide LineAt, ViewOf;
    var rest := LinesFrom(b, l.newlineEnd);
    assert LinesFrom(b, i)[1..] == rest;
    if l.newlineEnd < |b| { LastShows(b, l.newlineEnd, ViewOf(b, l, c).fullEnd); } else { assert rest == []; }
  }

  lemma LineShows(b: seq<byte>, i: nat)
    requires i < |b|
    ensures forall c {:trigger ViewOf(b, LineAt(b, i), c)} ::
      !ViewOf(b, LineAt(b, i), c).hasNewline ==> ViewOf(b, LineAt(b, i), c).text != []
  {
    var l := LineAt(b, i);
    var content := ContentOf(b, l);
    assert forall k :: 0 <= k < |content| ==> content[k] == b[i + k];
    hide NextNewline;
    NoLfShown(content);
    assert l.kind == NoNewline ==> |content| == |b| - i;
  }

  // --- A place is within lines exactly when it is within their range ---------

  /** Where line `k + 1` begins, and where it ends with its newline. */
  lemma RangeOfLines(b: seq<byte>, first: nat, last: nat, k: nat, len: nat)
    requires var views := Views(b, Lines(b), 0); 1 <= first <= |views| && 1 <= last <= |views|
    requires 0 < len && k + len <= |CanonicalText(b)|
    ensures var views, text := Views(b, Lines(b), 0), CanonicalText(b);
      && (views[first - 1].start <= k <==> first <= LineNumber(text, k))
      && (k + len <= views[last - 1].fullEnd <==> LineNumber(text, k + len - 1) <= last)
  {
    var views, text := Views(b, Lines(b), 0), CanonicalText(b);
    AllViewsTile(b);
    AllViewsAreLines(b);
    hide Views, Lines, CanonicalText, Tiles;
    StartOfLine(views, text, first, k);
    EndOfLine(views, text, last, k + len - 1);
  }

  lemma StartOfLine(views: seq<LineView>, text: seq<byte>, first: nat, k: nat)
    requires Tiles(views, text, 0) && LineViews(views) && 1 <= first <= |views| && k <= |text|
    ensures views[first - 1].start <= k <==> first <= LineNumber(text, k)
  {
    hide Tiles;
    CountAtView(views, text, first - 1);
    TilesFromStart(views, text, 0, first - 1);
    if views[first - 1].start <= k {
      CountGrows(text, views[first - 1].start, k);
    } else {
      CountAtView(views, text, first - 2);
      TilesFromStart(views, text, 0, first - 2);
      assert views[first - 2].hasNewline;
      CountGrows(text, k, views[first - 2].end);
    }
  }

  /** The byte at `p` is on line `last` or earlier exactly when it is before the end of that line. */
  lemma EndOfLine(views: seq<LineView>, text: seq<byte>, last: nat, p: nat)
    requires Tiles(views, text, 0) && LineViews(views) && 1 <= last <= |views| && p < |text|
    ensures p < views[last - 1].fullEnd <==> LineNumber(text, p) <= last
  {
    hide Tiles;
    var v := views[last - 1];
    CountAtView(views, text, last - 1);
    TilesFromStart(views, text, 0, last - 1);
    if p < v.fullEnd {
      if p <= v.end { CountGrows(text, p, v.end); }
    } else {
      assert last < |views|;
      assert v.hasNewline;
      CountGrows(text, v.fullEnd, p);
    }
  }

  // --- The search -----------------------------------------------------------

  /** The range searched when the hint is taken. */
  lemma RangeMeans(b: seq<byte>, hint: Option<MatchHint>, k: nat, len: nat)
    requires 0 < len && k + len <= |CanonicalText(b)| && HintFits(hint, CanonicalText(b))
    requires SearchRange(Views(b, Lines(b), 0), |CanonicalText(b)|, hint).Ok?
    ensures var text := CanonicalText(b);
      var range := SearchRange(Views(b, Lines(b), 0), |text|, hint).value;
      range.0 <= k && k + len <= range.1 <==>
      FirstLine(hint) <= LineNumber(text, k) && LineNumber(text, k + len - 1) <= LastLine(hint, text)
  {
    hide CanonicalText, Views, Lines, LineNumber, Tiles;
    var views := Views(b, Lines(b), 0);
    AllViewsTile(b);
    ViewCount(b);
    if hint.None? { WholeRange(b, k, len); }
    else { HintedRange(b, hint.value, k, len); }
  }

  lemma WholeRange(b: seq<byte>, k: nat, len: nat)
    requires 0 < len && k + len <= |CanonicalText(b)|
    ensures 1 <= LineNumber(CanonicalText(b), k)
    ensures LineNumber(CanonicalText(b), k + len - 1) <= LineCount(CanonicalText(b))
  {
    hide CanonicalText, Views, Lines, LineNumber, LineCount, Tiles;
    var views, text := Views(b, Lines(b), 0), CanonicalText(b);
    AllViewsTile(b);
    ViewCount(b);
    RangeOfLines(b, 1, |views|, k, len);
    TilesFromStart(views, text, 0, |views| - 1);
    TilesFromStart(views, text, 0, 0);
  }

  lemma HintedRange(b: seq<byte>, hint: MatchHint, k: nat, len: nat)
    requires 0 < len && k + len <= |CanonicalText(b)| && HintFits(Some(hint), CanonicalText(b))
    requires SearchRange(Views(b, Lines(b), 0), |CanonicalText(b)|, Some(hint)).Ok?
    ensures var text := CanonicalText(b);
      var range := SearchRange(Views(b, Lines(b), 0), |text|, Some(hint)).value;
      range.0 <= k && k + len <= range.1 <==>
      FirstLine(Some(hint)) <= LineNumber(text, k) && LineNumber(text, k + len - 1) <= LastLine(Some(hint), text)
  {
    hide CanonicalText, Views, Lines, LineNumber, LineCount, Tiles;
    var views, text := Views(b, Lines(b), 0), CanonicalText(b);
    var last := LastLine(Some(hint), text);
    AllViewsTile(b);
    ViewCount(b);
    RangeOfLines(b, FirstLine(Some(hint)), last, k, len);
    ViewEnds(views, text, 0, last - 1);
  }

  lemma HintRefused(b: seq<byte>, hint: Option<MatchHint>)
    ensures var text := CanonicalText(b);
      var range := SearchRange(Views(b, Lines(b), 0), |text|, hint);
      (range.Ok? <==> HintFits(hint, text)) && (range.Err? ==> range.error == InvalidHint)
  {
    hide CanonicalText, Views, Lines, LineCount;
    ViewCount(b);
  }

  predicate NowhereWithin(text: seq<byte>, needle: seq<byte>, first: nat, last: nat) {
    forall k: nat :: k < |text| ==> !OccursWithin(text, needle, k, first, last)
  }

  lemma SearchMeans(b: seq<byte>, hint: Option<MatchHint>, needle: seq<byte>)
    requires needle != []
    ensures var text, m := CanonicalText(b), ComputeMatchRange(b, hint, needle);
      var first, last := FirstLine(hint), LastLine(hint, text);
      if !HintFits(hint, text) then m == Err(InvalidHint)
      else
        && m.Ok?
        && (m.value.None? <==> NowhereWithin(text, needle, first, last))
        && (m.value.Some? ==>
              && OccursWithin(text, needle, m.value.value, first, last)
              && forall k: nat :: k < m.value.value ==> !OccursWithin(text, needle, k, first, last))
  {
    var text := CanonicalText(b);
    var first, last := FirstLine(hint), LastLine(hint, text);
    HintRefused(b, hint);
    SearchRangeInText(b, hint);
    if HintFits(hint, text) {
      var range := SearchRange(Views(b, Lines(b), 0), |text|, hint).value;
      hide CanonicalText, Views, Lines, SearchRange, LineNumber, HintFits, FirstLine, LastLine, FirstIn, OccursWithin,
        NowhereWithin;
      forall k: nat
        ensures OccursWithin(text, needle, k, first, last) <==>
                OccursAt(text, needle, k) && range.0 <= k && k + |needle| <= range.1
      {
        WithinRange(b, hint, needle, k);
      }
      FirstWithin(text, needle, range.0, range.1, first, last);
    }
  }

  lemma WithinRange(b: seq<byte>, hint: Option<MatchHint>, needle: seq<byte>, k: nat)
    requires needle != [] && HintFits(hint, CanonicalText(b))
    requires SearchRange(Views(b, Lines(b), 0), |CanonicalText(b)|, hint).Ok?
    ensures var text, range := CanonicalText(b), SearchRange(Views(b, Lines(b), 0), |CanonicalText(b)|, hint).value;
      OccursWithin(text, needle, k, FirstLine(hint), LastLine(hint, text)) <==>
      OccursAt(text, needle, k) && range.0 <= k && k + |needle| <= range.1
  {
    hide CanonicalText, Views, Lines, SearchRange, LineNumber, HintFits, FirstLine, LastLine;
    if OccursAt(CanonicalText(b), needle, k) { RangeMeans(b, hint, k, |needle|); }
  }

  lemma FirstWithin(text: seq<byte>, needle: seq<byte>, from: nat, limit: nat, first: nat, last: nat)
    requires needle != [] && from <= limit <= |text|
    requires forall k: nat ::
      OccursWithin(text, needle, k, first, last) <==> OccursAt(text, needle, k) && from <= k && k + |needle| <= limit
    ensures var m := FirstIn(text, needle, from, limit);
      && (m.None? <==> NowhereWithin(text, needle, first, last))
      && (m.Some? ==>
            && OccursWithin(text, needle, m.value, first, last)
            && forall k: nat :: k < m.value ==> !OccursWithin(text, needle, k, first, last))
  {
    hide OccursWithin, OccursAt;
    var m := FirstIn(text, needle, from, limit);
    if m.None? {
      forall k: nat | k < |text|
        ensures !OccursWithin(text, needle, k, first, last)
      {
        assert !(OccursAt(text, needle, k) && from <= k && k + |needle| <= limit);
      }
    }
  }

  /**
    What an edit does with a hint: it is refused exactly when the hint names no range
    of lines of the file; it is applied to the first occurrence within those lines, its
    last byte included; and there is no match exactly when no occurrence lies within.
   */
  ghost predicate Heeds(b: seq<byte>, req: Request, d: Outcome) {
    var text, needle := CanonicalText(b), ToLf(req.oldSnippet);
    var first, last := FirstLine(req.hint), LastLine(req.hint, text);
    var asked := req.oldSnippet != [] && (req.fileHash.None? || req.fileHash.value == Sha256(b));
    && (d == Failed(EmptySnippet) <==> req.oldSnippet == [])
    && (d == StaleFile <==> req.oldSnippet != [] && !asked)
    && (d == Failed(InvalidHint) <==> asked && !HintFits(req.hint, text))
    && (d == NoMatch <==> asked && HintFits(req.hint, text) && NowhereWithin(text, needle, first, last))
    && (d.Applied? ==>
          && asked && HintFits(req.hint, text) && OccursWithin(text, needle, d.at, first, last)
          && forall k: nat :: k < d.at ==> !OccursWithin(text, needle, k, first, last))
  }

  lemma HintIsHeeded(b: seq<byte>, req: Request)
    ensures Heeds(b, req, Decide(b, req))
  {
    hide CanonicalText, ComputeMatchRange, Table, FindBoundary, HintFits, FirstLine, LastLine, OccursWithin, ToLf,
      NowhereWithin;
    SomethingLeft(req.oldSnippet);
    if req.oldSnippet != [] { SearchMeans(b, req.hint, ToLf(req.oldSnippet)); }
  }

  lemma SomethingLeft(s: seq<byte>)
    ensures ToLf(s) == [] <==> s == []
  {
  }
}
