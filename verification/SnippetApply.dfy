/**
  Finding the old snippet, mapping its place to bytes and writing the file. The
  main results: every match maps to bytes, and the edit of the bytes is the edit
  of the view exactly when the splice makes no new CRLF.
 */
module SnippetApply {
  import opened Wrappers
  import opened Utf8
  import opened FileModel
  import opened FileLoading
  import opened SnippetEdit

  // --- Looking up offsets ---------------------------------------------------

  ghost predicate Ascending(t: seq<Boundary>) {
    forall i, j :: 0 <= i < j < |t| ==> t[i].canonical < t[j].canonical
  }

  function FindBoundary(t: seq<Boundary>, c: nat): Option<nat> {
    if t == [] then None else if t[0].canonical == c then Some(t[0].file) else FindBoundary(t[1..], c)
  }

  lemma {:induction false} FindBoundaryMeaning(t: seq<Boundary>, c: nat)
    requires Ascending(t)
    ensures FindBoundary(t, c).Some? ==> Boundary(c, FindBoundary(t, c).value) in t
    ensures forall b :: b in t && b.canonical == c ==> FindBoundary(t, c) == Some(b.file)
  {
    if t != [] {
      assert forall i, j :: 0 <= i < j < |t[1..]| ==> t[1..][i] == t[i + 1] && t[1..][j] == t[j + 1];
      FindBoundaryMeaning(t[1..], c);
      forall b | b in t && b.canonical == c
        ensures FindBoundary(t, c) == Some(b.file)
      {
        var i :| 0 <= i < |t| && t[i] == b;
        if i > 0 { assert t[0].canonical < t[i].canonical && t[1..][i - 1] == b; }
      }
    }
  }

  /** Binary search for a canonical offset. */
  method ByteOffset(t: seq<Boundary>, c: nat) returns (r: Option<nat>)
    requires Ascending(t)
    ensures r.Some? ==> Boundary(c, r.value) in t
    ensures r.None? ==> forall b :: b in t ==> b.canonical != c
    ensures r == FindBoundary(t, c)
  {
    hide FindBoundary;
    FindBoundaryMeaning(t, c);
    var lo, hi := 0, |t|;
    while lo < hi
      invariant 0 <= lo <= hi <= |t|
      invariant forall i :: 0 <= i < lo ==> t[i].canonical < c
      invariant forall i :: hi <= i < |t| ==> t[i].canonical > c
    {
      var mid := (lo + hi) / 2;
      if t[mid].canonical == c { return Some(t[mid].file); }
      if t[mid].canonical < c { lo := mid + 1; } else { hi := mid; }
    }
    r := None;
  }

  lemma {:induction false} TableAscending(b: seq<byte>, i: nat, j: nat)
    requires i < j < |Table(b)|
    ensures Table(b)[i].canonical < Table(b)[j].canonical && Table(b)[i].file < Table(b)[j].file
  {
    hide Table;
    TableAscends(b, j - 1);
    if i < j - 1 { TableAscending(b, i, j - 1); }
  }

  lemma TableIsAscending(b: seq<byte>)
    ensures Ascending(Table(b))
  {
    forall i, j | 0 <= i < j < |Table(b)|
      ensures Table(b)[i].canonical < Table(b)[j].canonical
    {
      TableAscending(b, i, j);
    }
  }

  lemma {:induction false} TilesFromStart(views: seq<LineView>, text: seq<byte>, c: nat, k: nat)
    requires Tiles(views, text, c) && k < |views|
    ensures c <= views[k].start <= views[k].end <= views[k].fullEnd <= |text|
    ensures forall j :: 0 <= j < k ==> views[j].fullEnd <= views[k].start
    ensures k == |views| - 1 ==> views[k].fullEnd == |text|
    ensures k + 1 < |views| ==> views[k + 1].start == views[k].fullEnd
    ensures k == 0 ==> views[k].start == c
    decreases |views|
  {
    if k > 0 {
      TilesFromStart(views[1..], text, views[0].fullEnd, k - 1);
      forall j | 0 <= j < k
        ensures views[j].fullEnd <= views[k].start
      {
        if j > 0 { assert views[j] == views[1..][j - 1]; }
      }
    }
  }

  /** The line an offset of the text lies in; an offset past the end counts to the last line. */
  method LineIndexForOffset(views: seq<LineView>, ghost text: seq<byte>, offset: nat) returns (idx: nat)
    requires Tiles(views, text, 0) && views != []
    ensures idx < |views|
    ensures offset < |text| ==> views[idx].start <= offset < views[idx].fullEnd
    ensures offset >= |text| ==> idx == |views| - 1
  {
    hide Tiles;
    var lo, hi := 0, |views|;
    while lo < hi
      invariant 0 <= lo <= hi <= |views|
      invariant forall i :: 0 <= i < lo ==> views[i].fullEnd <= offset
      invariant hi < |views| ==> offset < views[hi].fullEnd
    {
      var mid := (lo + hi) / 2;
      TilesFromStart(views, text, 0, mid);
      if offset >= views[mid].fullEnd { lo := mid + 1; } else { hi := mid; }
    }
    idx := if lo < |views| then lo else |views| - 1;
    TilesFromStart(views, text, 0, idx);
    if idx > 0 { TilesFromStart(views, text, 0, idx - 1); }
    TilesFromStart(views, text, 0, |views| - 1);
  }

  // --- Finding the snippet --------------------------------------------------

  predicate OccursAt(text: seq<byte>, needle: seq<byte>, i: nat) {
    i + |needle| <= |text| && text[i..i + |needle|] == needle
  }

  /** The first occurrence of `needle` that lies within `from..limit`. */
  function FirstIn(text: seq<byte>, needle: seq<byte>, from: nat, limit: nat): (r: Option<nat>)
    requires from <= limit <= |text|
    ensures r.Some? ==> from <= r.value && r.value + |needle| <= limit && OccursAt(text, needle, r.value)
    ensures forall i: nat :: (from <= i && i + |needle| <= limit && OccursAt(text, needle, i)) ==>
      (r.Some? && r.value <= i)
    decreases limit - from
  {
    if from + |needle| > limit then None
    else if OccursAt(text, needle, from) then Some(from)
    else FirstIn(text, needle, from + 1, limit)
  }

  /** One-based, inclusive; a missing bound is the first or the last line. */
  datatype MatchHint = MatchHint(startLine: Option<nat>, endLine: Option<nat>)

  datatype EditError = EmptySnippet | InvalidHint | Unmapped

  function Or(o: Option<nat>, default: nat): nat { if o.Some? then o.value else default }

  /** Where to search: the lines of the hint, or everything. */
  function SearchRange(views: seq<LineView>, textLen: nat, hint: Option<MatchHint>): Result<(nat, nat), EditError> {
    if hint.None? then Ok((0, textLen))
    else
      var startLine, endLine := Or(hint.value.startLine, 1), Or(hint.value.endLine, |views|);
      if startLine == 0 || endLine < startLine || startLine > |views| || endLine > |views| then Err(InvalidHint)
      else Ok((views[startLine - 1].start,
               views[endLine - 1].end + if views[endLine - 1].hasNewline then 1 else 0))
  }

  lemma SearchRangeInText(b: seq<byte>, hint: Option<MatchHint>)
    ensures var views, text := Views(b, Lines(b), 0), CanonicalText(b);
      SearchRange(views, |text|, hint).Ok? ==>
        SearchRange(views, |text|, hint).value.0 <= SearchRange(views, |text|, hint).value.1 <= |text|
  {
    hide CanonicalText, Lines, Views;
    var views, text := Views(b, Lines(b), 0), CanonicalText(b);
    AllViewsTile(b);
    if hint.Some? && SearchRange(views, |text|, hint).Ok? {
      var i, j := Or(hint.value.startLine, 1) - 1, Or(hint.value.endLine, |views|) - 1;
      TilesFromStart(views, text, 0, i);
      TilesFromStart(views, text, 0, j);
      ViewEnds(views, text, 0, j);
    }
  }

  lemma {:induction false} ViewEnds(views: seq<LineView>, text: seq<byte>, c: nat, k: nat)
    requires Tiles(views, text, c) && k < |views|
    ensures views[k].fullEnd == views[k].end + if views[k].hasNewline then 1 else 0
    decreases |views|
  {
    if k > 0 { ViewEnds(views[1..], text, views[0].fullEnd, k - 1); }
  }

  function ComputeMatchRange(b: seq<byte>, hint: Option<MatchHint>, needle: seq<byte>): Result<Option<nat>, EditError> {
    if needle == [] then Ok(None)
    else
      var range := SearchRange(Views(b, Lines(b), 0), |CanonicalText(b)|, hint);
      SearchRangeInText(b, hint);
      match range
      case Err(e) => Err(e)
      case Ok((from, limit)) => Ok(FirstIn(CanonicalText(b), needle, from, limit))
  }

  // --- The edit -------------------------------------------------------------

  datatype Request = Request(oldSnippet: seq<byte>, newSnippet: seq<byte>, hint: Option<MatchHint>,
                             fileHash: Option<Digest<seq<byte>>>)

  datatype Outcome =
    | Failed(error: EditError)
    | StaleFile
    | NoMatch
    | Applied(at: nat, start: nat, end: nat)

  function FileNewline(b: seq<byte>): NewlineKind { StatsOf(Lines(b)).DefaultKind() }

  function Replacement(b: seq<byte>, req: Request): seq<byte> { Expand(ToLf(req.newSnippet), FileNewline(b).Bytes()) }

  function Decide(b: seq<byte>, req: Request): (r: Outcome)
    ensures r.Applied? ==> r.start <= |b| && r.end <= |b|
  {
    if req.oldSnippet == [] then Failed(EmptySnippet)
    else if req.fileHash.Some? && req.fileHash.value != Sha256(b) then StaleFile
    else
      match ComputeMatchRange(b, req.hint, ToLf(req.oldSnippet))
      case Err(e) => Failed(e)
      case Ok(None) => NoMatch
      case Ok(Some(at)) =>
        match (FindBoundary(Table(b), at), FindBoundary(Table(b), at + |ToLf(req.oldSnippet)|))
        case (Some(start), Some(end)) =>
          FoundInFile(b, at);
          FoundInFile(b, at + |ToLf(req.oldSnippet)|);
          Applied(at, start, end)
        case _ => Failed(Unmapped)
  }

  function Spliced(b: seq<byte>, start: nat, end: nat, replacement: seq<byte>): seq<byte>
    requires start <= |b| && end <= |b|
  {
    b[..start] + replacement + b[end..]
  }

  lemma FileHasLength(b: seq<byte>, k: nat)
    requires k < |Table(b)|
    ensures Table(b)[k].file <= |b|
  {
    TableExact(b);
    if k < |Table(b)| - 1 { TableAscending(b, k, |Table(b)| - 1); }
  }

  /** A match is an occurrence of a nonempty needle in the view, within the hinted lines and nowhere earlier in them. */
  lemma MatchOccurs(b: seq<byte>, hint: Option<MatchHint>, needle: seq<byte>)
    ensures var r := ComputeMatchRange(b, hint, needle);
      r.Ok? && r.value.Some? ==> needle != [] && OccursAt(CanonicalText(b), needle, r.value.value)
  {
    hide CanonicalText, Views, Lines;
    if needle != [] { SearchRangeInText(b, hint); }
  }

  /** Both ends of every match of a valid snippet map to bytes. */
  lemma EveryMatchMaps(b: seq<byte>, req: Request)
    requires Valid(req.oldSnippet)
    ensures Decide(b, req) != Failed(Unmapped)
  {
    hide Table, CanonicalText, Valid, ComputeMatchRange, ToLf, FindBoundary;
    var needle := ToLf(req.oldSnippet);
    var m := ComputeMatchRange(b, req.hint, needle);
    SearchErrors(b, req.hint, needle);
    if m.Ok? && m.value.Some? {
      var at, text := m.value.value, CanonicalText(b);
      MatchOccurs(b, req.hint, needle);
      NormalizedValid(req.oldSnippet);
      TableExact(b);
      MatchAtBoundaries(text, at, needle);
      BoundaryFound(b, at);
      BoundaryFound(b, at + |needle|);
    }
  }

  lemma SearchErrors(b: seq<byte>, hint: Option<MatchHint>, needle: seq<byte>)
    ensures ComputeMatchRange(b, hint, needle).Err? ==> ComputeMatchRange(b, hint, needle).error == InvalidHint
  {
    hide CanonicalText, Views, Lines, FirstIn;
    if needle != [] { SearchRangeInText(b, hint); }
  }

  lemma NormalizedValid(s: seq<byte>)
    requires Valid(s)
    ensures Valid(ToLf(s))
  {
    ViewIsNormalized(s);
    TokensAreScalars(s);
    TextValid(FileTokens(s));
  }

  lemma BoundaryFound(b: seq<byte>, c: nat)
    requires IsBoundary(CanonicalText(b), c)
    ensures FindBoundary(Table(b), c).Some?
  {
    hide Table, CanonicalText;
    TableExact(b);
    TableIsAscending(b);
    FindBoundaryMeaning(Table(b), c);
    var k :| 0 <= k < |Table(b)| && Table(b)[k].canonical == c;
    assert Table(b)[k] in Table(b);
  }

  lemma FoundInFile(b: seq<byte>, c: nat)
    ensures FindBoundary(Table(b), c).Some? ==> FindBoundary(Table(b), c).value <= |b|
  {
    hide Table, FindBoundary;
    TableIsAscending(b);
    FindBoundaryMeaning(Table(b), c);
    if FindBoundary(Table(b), c).Some? {
      var k :| 0 <= k < |Table(b)| && Table(b)[k] == Boundary(c, FindBoundary(Table(b), c).value);
      FileHasLength(b, k);
    }
  }
}
