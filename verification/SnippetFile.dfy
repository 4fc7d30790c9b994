/** The file being edited: the program's own steps, from the request to the bytes written and the lines reported. */
module SnippetFile {
  import opened Wrappers
  import opened Utf8
  import opened FileModel
  import opened FileLoading
  import opened SnippetEdit
  import opened SnippetApply
  import opened SnippetHints

  /** The checks that come before any byte is written, and the bytes to replace. */
  method Resolve(b: seq<byte>, req: Request, needle: seq<byte>, t: seq<Boundary>) returns (r: Outcome)
    requires needle == ToLf(req.oldSnippet) && t == Table(b)
    ensures r == Decide(b, req)
  {
    hide Table, ToLf, FindBoundary, ComputeMatchRange;
    if req.oldSnippet == [] { return Failed(EmptySnippet); }
    if req.fileHash.Some? && req.fileHash.value != Sha256(b) { return StaleFile; }
    var found := ComputeMatchRange(b, req.hint, needle);
    if found.Err? { return Failed(found.error); }
    if found.value.None? { return NoMatch; }
    var at := found.value.value;
    TableIsAscending(b);
    FoundInFile(b, at);
    FoundInFile(b, at + |needle|);
    hide Ascending;
    var start := ByteOffset(t, at);
    if start.None? { return Failed(Unmapped); }
    var end := ByteOffset(t, at + |needle|);
    if end.None? { return Failed(Unmapped); }
    r := Applied(at, start.value, end.value);
  }

  /** The line of an offset of the text, counted from one. */
  method ReportedLine(b: seq<byte>, views: seq<LineView>, offset: nat) returns (line: nat)
    requires views == Views(b, Lines(b), 0) && offset < |CanonicalText(b)|
    ensures line == LineNumber(CanonicalText(b), offset)
  {
    AllViewsTile(b);
    AllViewsAreLines(b);
    ghost var text := CanonicalText(b);
    hide Views, Lines, CanonicalText, Tiles, LineViews, LineNumber;
    var idx := LineIndexForOffset(views, text, offset);
    StartOfLine(views, text, idx + 1, offset);
    EndOfLine(views, text, idx + 1, offset);
    line := idx + 1;
  }

  class TextFile {
    var bytes: seq<byte>

    constructor (bytes: seq<byte>)
      ensures this.bytes == bytes
    {
      this.bytes := bytes;
    }

    /**
      Applies the edit: the file changes only when the outcome is `Applied`, and then
      by the replacement of one byte range. `lines` are those of the match.
     */
    method ApplySnippetEdit(req: Request) returns (r: Outcome, lines: (nat, nat))
      modifies this
      ensures r == Decide(old(bytes), req) && Heeds(old(bytes), req, r)
      ensures r.Applied? ==>
        && r.start <= |old(bytes)| && r.end <= |old(bytes)|
        && bytes == Spliced(old(bytes), r.start, r.end, Replacement(old(bytes), req))
      ensures r.Applied? ==>
        var text, n := CanonicalText(old(bytes)), |ToLf(req.oldSnippet)|;
        && 0 < n && r.at + n <= |text|
        && lines == (LineNumber(text, r.at), LineNumber(text, r.at + n - 1))
      ensures !r.Applied? ==> bytes == old(bytes)
    {
      hide *;
      var needle := NormalizeNewlinesToLf(req.oldSnippet);
      var content := NormalizeNewlinesToLf(req.newSnippet);
      var slices, stats := SplitLines(bytes);
      var model := FromBytes(bytes, slices);
      r := Resolve(bytes, req, needle, model.boundaries);
      lines := (1, 1);
      HintIsHeeded(bytes, req);
      if r.Applied? {
        MatchPlace(bytes, req);
        var startLine := ReportedLine(bytes, model.views, r.at);
        var endLine := ReportedLine(bytes, model.views, r.at + |needle| - 1);
        lines := (startLine, endLine);
        var kind := stats.DefaultKind();
        var updated := AppendReplacementBytes(bytes[..r.start], content, kind);
        SplicedBytes(bytes, req, r.start, r.end);
        bytes := updated + bytes[r.end..];
      }
    }
  }

  lemma MatchPlace(b: seq<byte>, req: Request)
    requires Decide(b, req).Applied?
    ensures var n, at := |ToLf(req.oldSnippet)|, Decide(b, req).at; 0 < n && at + n <= |CanonicalText(b)|
  {
    hide CanonicalText, ComputeMatchRange, Table, FindBoundary, ToLf, LineNumber, HintFits, FirstLine, LastLine;
    HintIsHeeded(b, req);
  }

  lemma SplicedBytes(b: seq<byte>, req: Request, start: nat, end: nat)
    requires start <= |b| && end <= |b|
    ensures Spliced(b, start, end, Replacement(b, req)) ==
            b[..start] + Expand(ToLf(req.newSnippet), StatsOf(Lines(b)).DefaultKind().Bytes()) + b[end..]
  {
    hide Expand, ToLf, StatsOf, Lines;
  }
}
