/**
  A file with mixed newlines, and an edit of it that is applied and yet is not the
  edit of the view: the newline written after an old CR joins it.
 */
module SnippetSeams {
  import opened Wrappers
  import opened Utf8
  import opened FileModel
  import opened FileLoading
  import opened SnippetEdit
  import opened SnippetApply
  import opened SnippetCommutes

  const A: byte := 97
  const B: byte := 98
  const C: byte := 99

  const MIXED: seq<byte> := [A, CR, B, LF, C, LF]

  /** Replacing `b` by a line break and `b`. */
  const BREAK_BEFORE: Request := Request([B], [LF, B], None, None)

  /**
    In `a CR b LF c LF` LF dominates. The edit that puts a line break before `b` is
    applied; its LF lands after the old CR, and the two read as one newline.
   */
  lemma MixedNewlinesSeam()
    ensures Decide(MIXED, BREAK_BEFORE) == Applied(2, 2, 3) && Replacement(MIXED, BREAK_BEFORE) == [LF, B]
    ensures CanonicalText(MIXED) == [A, LF, B, LF, C, LF]
    ensures !SeamFree(MIXED[..2], Replacement(MIXED, BREAK_BEFORE), MIXED[3..])
    ensures CanonicalText(Spliced(MIXED, 2, 3, Replacement(MIXED, BREAK_BEFORE))) == [A, LF, B, LF, C, LF]
  {
    hide CanonicalText, Step, Decide, Replacement;
    ShortView(MIXED);
    SeamReplacement();
    SeamIsApplied();
    assert Spliced(MIXED, 2, 3, [LF, B]) == [A, CR, LF, B, LF, C, LF];
    ShortViewSpliced();
  }

  // --- The table of an ASCII file without CRLF ------------------------------

  predicate Even(ts: seq<Token>) { forall t :: t in ts ==> t.width == 1 && |t.text| == 1 }

  predicate PlainFile(b: seq<byte>) {
    b == [] || (b[0] <= 0x7F && !(b[0] == CR && b[1..] != [] && b[1] == LF) && PlainFile(b[1..]))
  }

  lemma {:induction false} PlainFileIsEven(b: seq<byte>)
    requires PlainFile(b)
    ensures Even(FileTokens(b)) && |FileTokens(b)| == |b|
  {
    if b != [] {
      assert Step(b).width == 1 && |Step(b).text| == 1;
      hide Step;
      PlainFileIsEven(b[1..]);
    }
  }

  lemma {:induction false} EvenTable(ts: seq<Token>, c: nat, k: nat)
    requires Even(ts) && c < k <= c + |ts|
    ensures FindBoundary(Sums(ts, c, c), k) == Some(k)
    decreases |ts|
  {
    var rest := ts[1..];
    assert ts[0] in ts && Even(rest);
    hide Even;
    assert Sums(ts, c, c)[1..] == Sums(rest, c + 1, c + 1);
    if k > c + 1 { EvenTable(rest, c + 1, k); }
  }

  /** Offsets of such a file and of its view are the same. */
  lemma PlainOffset(b: seq<byte>, k: nat)
    requires PlainFile(b) && 0 < k <= |b|
    ensures FindBoundary(Table(b), k) == Some(k)
  {
    PlainFileIsEven(b);
    hide Even, FileTokens, Sums;
    EvenTable(FileTokens(b), 0, k);
    assert Table(b)[1..] == Sums(FileTokens(b), 0, 0);
  }

  // --- The edit is applied --------------------------------------------------

  lemma MixedIsPlain()
    ensures PlainFile(MIXED)
  {
    assert MIXED[1..] == [CR, B, LF, C, LF];
    assert MIXED[1..][1..] == [B, LF, C, LF];
    assert [B, LF, C, LF][1..] == [LF, C, LF];
    assert [LF, C, LF][1..] == [C, LF];
    assert [C, LF][1..] == [LF];
    assert PlainFile([LF]);
    assert PlainFile([C, LF]);
    assert PlainFile([LF, C, LF]);
    assert PlainFile([B, LF, C, LF]);
    assert PlainFile([CR, B, LF, C, LF]);
  }

  lemma FirstB(text: seq<byte>)
    requires text == [A, LF, B, LF, C, LF]
    ensures FirstIn(text, [B], 0, |text|) == Some(2)
  {
    assert OccursAt(text, [B], 2) by { assert text[2..3] == [B]; }
    var r := FirstIn(text, [B], 0, |text|).value;
    assert text[r..r + 1][0] == text[r];
  }

  lemma SeamIsApplied()
    ensures Decide(MIXED, BREAK_BEFORE) == Applied(2, 2, 3)
  {
    hide CanonicalText, Table, FindBoundary, FirstIn, PlainFile, Views, Lines, ToLf;
    ShortView(MIXED);
    FirstB(CanonicalText(MIXED));
    OneByteToLf();
    MixedIsPlain();
    PlainOffset(MIXED, 2);
    PlainOffset(MIXED, 3);
    SearchAll(Views(MIXED, Lines(MIXED), 0), |CanonicalText(MIXED)|);
    assert ComputeMatchRange(MIXED, None, [B]) == Ok(Some(2));
  }

  lemma SearchAll(views: seq<LineView>, textLen: nat)
    ensures SearchRange(views, textLen, None) == Ok((0, textLen))
  {
  }

  lemma OneByteToLf()
    ensures ToLf([B]) == [B]
  {
    ToLfPlain([B], []);
    ToLfEmpty();
    assert [B] + [] == [B];
  }

  lemma LineEnds(b: seq<byte>, i: nat)
    requires i + 1 < |b| && !IsNewline(b[i]) && IsNewline(b[i + 1])
             && (b[i + 1] == CR && i + 2 < |b| ==> b[i + 2] != LF)
    ensures LineAt(b, i) == LineSlice(i, i + 1, i + 2, if b[i + 1] == CR then Cr else Lf)
  {
    var e := i + 1;
    assert NextNewline(b, e) == e;
  }

  lemma MixedLines()
    ensures Lines(MIXED) == [LineSlice(0, 1, 2, Cr), LineSlice(2, 3, 4, Lf), LineSlice(4, 5, 6, Lf)]
  {
    LineEnds(MIXED, 0);
    LineEnds(MIXED, 2);
    LineEnds(MIXED, 4);
    hide LineAt;
    assert LinesFrom(MIXED, 6) == [];
    assert LinesFrom(MIXED, 4) == [LineSlice(4, 5, 6, Lf)];
    assert LinesFrom(MIXED, 2) == [LineSlice(2, 3, 4, Lf)] + LinesFrom(MIXED, 4);
    assert LinesFrom(MIXED, 0) == [LineSlice(0, 1, 2, Cr)] + LinesFrom(MIXED, 2);
  }

  lemma MixedIsLf()
    ensures FileNewline(MIXED) == Lf
  {
    hide Lines;
    MixedLines();
    var one, two, three := LineSlice(0, 1, 2, Cr), LineSlice(2, 3, 4, Lf), LineSlice(4, 5, 6, Lf);
    assert [one, two, three][..2] == [one, two] && [one, two][..1] == [one] && [one][..0] == [];
    assert StatsOf([one]) == NewlineStats(0, 0, 1);
    assert StatsOf([one, two]) == NewlineStats(1, 0, 1);
    assert StatsOf([one, two, three]) == NewlineStats(2, 0, 1);
  }

  lemma SeamReplacement()
    ensures Replacement(MIXED, BREAK_BEFORE) == [LF, B]
  {
    hide FileNewline, ToLf, Expand;
    MixedIsLf();
    ToLfPlain([LF, B], []);
    ToLfEmpty();
    assert [LF, B] + [] == [LF, B];
    ExpandToLf([LF, B]);
  }

  // --- The two views --------------------------------------------------------

  lemma AsciiStep(x: byte, rest: seq<byte>)
    requires x <= 0x7F && !IsNewline(x)
    ensures CanonicalText([x] + rest) == [x] + CanonicalText(rest)
  {
    ViewUnfold([x] + rest);
    assert ([x] + rest)[1..] == rest && ([x] + rest)[..1] == [x];
  }

  lemma LfStep(rest: seq<byte>)
    ensures CanonicalText([LF] + rest) == [LF] + CanonicalText(rest)
  {
    ViewOfSplitCrLf(rest);
  }

  lemma ShortTail()
    ensures CanonicalText([B, LF, C, LF]) == [B, LF, C, LF]
  {
    hide CanonicalText;
    ViewEmpty();
    LfStep([]);
    assert [LF] + [] == [LF];
    AsciiStep(C, [LF]);
    assert [C] + [LF] == [C, LF];
    LfStep([C, LF]);
    assert [LF] + [C, LF] == [LF, C, LF];
    AsciiStep(B, [LF, C, LF]);
    assert [B] + [LF, C, LF] == [B, LF, C, LF];
  }

  lemma ShortView(b: seq<byte>)
    requires b == [A, CR, B, LF, C, LF]
    ensures CanonicalText(b) == [A, LF, B, LF, C, LF]
  {
    hide CanonicalText;
    ShortTail();
    var rest := [CR, B, LF, C, LF];
    ViewUnfold(rest);
    assert rest[1..] == [B, LF, C, LF];
    AsciiStep(A, rest);
    assert [A] + rest == b;
  }

  lemma ShortViewSpliced()
    ensures CanonicalText([A, CR, LF, B, LF, C, LF]) == [A, LF, B, LF, C, LF]
  {
    hide CanonicalText;
    ShortTail();
    ViewOfSplitCrLf([B, LF, C, LF]);
    assert [CR, LF] + [B, LF, C, LF] == [CR, LF, B, LF, C, LF];
    AsciiStep(A, [CR, LF, B, LF, C, LF]);
    assert [A] + [CR, LF, B, LF, C, LF] == [A, CR, LF, B, LF, C, LF];
  }
}
