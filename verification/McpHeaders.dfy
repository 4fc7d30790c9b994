/**
  What a successful parse says about the bytes it took: a framed message follows
  headers of bounded size with exactly one length, and that length is the body's;
  a raw message is one line after nothing but blank ones.
 */
module McpHeaders {
  import opened Wrappers
  import opened Sequences
  import opened Utf8
  import opened McpText
  import opened McpWriter
  import opened McpParse

  /** The length a header line announces, if it is such a line. */
  function AnnouncedLength(text: seq<byte>): Option<nat> {
    var colon := FindByte(text, COLON);
    if colon < |text| && NamesContentLength(text[..colon]) && ParseLength(text[colon + 1..]).Ok?
    then Some(ParseLength(text[colon + 1..]).value) else None
  }

  /** The lengths announced by the lines of a header section. */
  function Lengths(head: seq<byte>): seq<nat>
    decreases |head|
  {
    if head == [] then []
    else
      var line := LineOf(head);
      var length := AnnouncedLength(TrimCrlfSuffix(line));
      (if length.Some? then [length.value] else []) + Lengths(head[|line|..])
  }

  predicate BlankLines(head: seq<byte>) { forall k :: 0 <= k < |head| ==> head[k] == CR || head[k] == LF }

  lemma {:induction false} LineShape(b: seq<byte>)
    requires b != []
    ensures var line := LineOf(b); var n := |line| - 1;
      n >= 0 && LF !in line[..n] && (line[n] != LF ==> line == b)
  {
    if b[0] != LF {
      if |b| > 1 {
        LineShape(b[1..]);
        var n := |LineOf(b[1..])|;
        assert LineOf(b)[..n] == [b[0]] + LineOf(b[1..])[..n - 1];
      } else {
        assert LineOf(b[1..]) == [];
      }
    }
  }

  /** The first line of a text is the first line of every part of it that contains the line. */
  lemma LineOfPart(b: seq<byte>, k: nat)
    requires b != [] && |LineOf(b)| <= k <= |b|
    ensures LineOf(b[..k]) == LineOf(b)
  {
    hide LineOf;
    var line := LineOf(b);
    var n := |line| - 1;
    LineShape(b);
    if line[n] == LF {
      var tail := b[..k][|line|..];
      LineEndsAt(line[..n], tail);
      assert line == line[..n] + [LF];
      CutAt(b[..k], |line|);
      assert b[..k][..|line|] == line;
    } else {
      assert b[..k] == b;
    }
  }

  /** What taking a line does to the lengths seen and to the size of the section. */
  lemma TakenLine(text: seq<byte>, width: nat, h: Headers)
    ensures var r := TakeLine(text, width, h);
      && (r.More? ==>
          && r.headers.sectionBytes == h.sectionBytes + width <= MAX_MCP_HEADER_BYTES
          && r.headers.contentLength == (if h.contentLength.Some? then h.contentLength else AnnouncedLength(text))
          && (h.contentLength.Some? ==> AnnouncedLength(text).None?))
      && (r.Body? ==>
          && h.sectionBytes + width <= MAX_MCP_HEADER_BYTES && text == []
          && h.contentLength == Some(r.len))
  {
    hide IsRawLine, NamesContentLength, ParseLength;
  }

  /** The lengths of a header section, given its first line. */
  lemma LengthsStep(rest: seq<byte>, line: seq<byte>, k: nat)
    requires rest != [] && line == LineOf(rest) && |line| <= k <= |rest|
    ensures var length := AnnouncedLength(TrimCrlfSuffix(line));
      Lengths(rest[..k]) == (if length.Some? then [length.value] else []) + Lengths(rest[|line|..][..k - |line|])
  {
    hide LineOf, AnnouncedLength, TrimCrlfSuffix;
    LineOfPart(rest, k);
    assert rest[..k][|line|..] == rest[|line|..][..k - |line|];
  }

  lemma NoLengths()
    ensures Lengths([]) == [] && AnnouncedLength([]) == None
  {
  }

  /**
    A framed message: its body is UTF-8 of the one length its headers announce, and the headers
    are within their limit.
   */
  lemma {:induction false} FramedMessageIsSound(rest: seq<byte>, h: Headers) returns (k: nat)
    requires ParseFrom(rest, h).Message? && ParseFrom(rest, h).hasHeaders
    ensures var o := ParseFrom(rest, h);
      && k <= |rest| && rest[k..] == o.body + o.after && Valid(o.body) && h.sectionBytes + k <= MAX_MCP_HEADER_BYTES
      && Lengths(rest[..k]) == (if h.contentLength.Some? then [] else [|o.body|])
      && (h.contentLength.Some? ==> h.contentLength.value == |o.body|)
    decreases |rest|
  {
    hide LineOf, TakeLine, TrimCrlfSuffix, Lengths, AnnouncedLength, Valid;
    var line := LineOf(rest);
    var after, text := rest[|line|..], TrimCrlfSuffix(line);
    TakenLine(text, |line|, h);
    NoLengths();
    match TakeLine(text, |line|, h)
    case Body(len) =>
      k := |line|;
      LengthsStep(rest, line, k);
      assert after[..0] == [];
      CutAt(after, len);
    case More(next) =>
      var deeper := FramedMessageIsSound(after, next);
      k := |line| + deeper;
      LengthsStep(rest, line, k);
      DropTwice(rest, |line|, deeper);
  }

  /** Headers come with a length and no raw message after them. */
  lemma {:induction false} RawMessageIsSound(rest: seq<byte>, h: Headers) returns (k: nat)
    requires ParseFrom(rest, h).Message? && !ParseFrom(rest, h).hasHeaders
    requires !h.sawOther && h.contentLength.None?
    ensures var o := ParseFrom(rest, h);
      && k < |rest| && BlankLines(rest[..k])
      && var line := LineOf(rest[k..]);
         && o.after == rest[k..][|line|..] && IsRawLine(TrimCrlfSuffix(line)) && o.body == RawBody(TrimCrlfSuffix(line))
    decreases |rest|
  {
    hide LineOf, TakeLine, TrimCrlfSuffix, IsRawLine, RawBody;
    var line := LineOf(rest);
    var after, text := rest[|line|..], TrimCrlfSuffix(line);
    RawLineTaken(text, |line|, h);
    match TakeLine(text, |line|, h)
    case Raw(body) =>
      k := 0;
      assert rest[0..] == rest;
    case More(next) =>
      if text == [] {
        var deeper := RawMessageIsSound(after, next);
        k := |line| + deeper;
        DropTwice(rest, |line|, deeper);
        TrimmedAway(line);
        assert rest[..k] == line + after[..deeper];
      } else {
        AlwaysFramed(after, next);
      }
  }

  lemma RawLineTaken(text: seq<byte>, width: nat, h: Headers)
    requires !h.sawOther && h.contentLength.None?
    ensures var r := TakeLine(text, width, h);
      && (r.Raw? ==> IsRawLine(text) && r.body == RawBody(text))
      && (r.More? && text == [] ==> !r.headers.sawOther && r.headers.contentLength.None?)
      && (r.More? && text != [] ==> r.headers.sawOther || r.headers.contentLength.Some?)
      && (r.More? ==> (r.headers.contentLength.Some? ==> r.headers.sawHeaders))
      && !r.Body?
  {
    hide IsRawLine, RawBody, NamesContentLength, ParseLength, FindByte;
  }

  lemma {:induction false} TrimmedAway(line: seq<byte>)
    requires TrimCrlfSuffix(line) == []
    ensures BlankLines(line)
  {
    if line != [] { TrimmedAway(line[..|line| - 1]); }
  }

  /** Once a header was seen, no message comes without headers. */
  lemma {:induction false} AlwaysFramed(rest: seq<byte>, h: Headers)
    requires h.sawOther || h.contentLength.Some?
    requires h.contentLength.Some? ==> h.sawHeaders
    ensures ParseFrom(rest, h).Message? ==> ParseFrom(rest, h).hasHeaders
    decreases |rest|
  {
    hide LineOf, TakeLine, TrimCrlfSuffix;
    var line := LineOf(rest);
    if line != [] && |line| <= MAX_MCP_MESSAGE_BYTES {
      var text := TrimCrlfSuffix(line);
      StaysFramed(text, |line|, h);
      match TakeLine(text, |line|, h)
      case More(next) => AlwaysFramed(rest[|line|..], next);
      case _ =>
    }
  }

  lemma StaysFramed(text: seq<byte>, width: nat, h: Headers)
    requires (h.sawOther || h.contentLength.Some?) && (h.contentLength.Some? ==> h.sawHeaders)
    ensures var r := TakeLine(text, width, h);
      && !r.Raw? && (r.Body? ==> h.sawHeaders)
      && (r.More? ==> r.headers.sawOther || r.headers.contentLength.Some?)
      && (r.More? && r.headers.contentLength.Some? ==> r.headers.sawHeaders)
  {
    hide IsRawLine, NamesContentLength, ParseLength, FindByte;
  }
}
