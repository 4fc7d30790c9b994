/**
  The limit on a header section, stated exactly, and what it means for a reader that
  saw only half of the newline behind a framed body.
 */
module McpHeaderLimit {
  import opened Wrappers
  import opened Utf8
  import opened McpText
  import opened McpWriter
  import opened McpParse
  import opened McpRoundTrip

  /** The bytes counted against the header limit by the time the next message is found or given up. */
  function SectionFrom(rest: seq<byte>, h: Headers): (n: nat)
    ensures h.sectionBytes <= n
    decreases |rest|
  {
    var line := LineOf(rest);
    if |line| > MAX_MCP_MESSAGE_BYTES || line == [] then h.sectionBytes
    else
      match TakeLine(TrimCrlfSuffix(line), |line|, h)
      case Raw(_) => h.sectionBytes
      case More(next) =>
        MoreCounts(TrimCrlfSuffix(line), |line|, h);
        SectionFrom(rest[|line|..], next)
      case _ => h.sectionBytes + |line|
  }

  function SectionBytes(rest: seq<byte>): nat { SectionFrom(rest, FRESH) }

  predicate TooLarge(o: Outcome) { o.Fatal? && o.error == HeadersTooLarge }

  lemma MoreCounts(text: seq<byte>, width: nat, h: Headers)
    ensures var a := TakeLine(text, width, h);
      a.More? ==> a.headers.sectionBytes == h.sectionBytes + width <= MAX_MCP_HEADER_BYTES
  {
    hide IsRawLine, RawBody, NamesContentLength, ParseLength, FindByte;
  }

  /** One line with `extra` more bytes before it: the same, unless they take the section past its limit. */
  lemma TakeLineExtra(text: seq<byte>, width: nat, h: Headers, extra: nat)
    ensures var a, b := TakeLine(text, width, h), TakeLine(text, width, h.(sectionBytes := h.sectionBytes + extra));
      if !a.Raw? && h.sectionBytes + width + extra > MAX_MCP_HEADER_BYTES then b.Stop? && b.error == HeadersTooLarge
      else b == (if a.More? then More(a.headers.(sectionBytes := a.headers.sectionBytes + extra)) else a)
  {
    hide IsRawLine, RawBody, NamesContentLength, ParseLength, FindByte;
  }

  lemma LengthErrors(value: seq<byte>)
    ensures ParseLength(value).Err? ==> ParseLength(value).error != HeadersTooLarge
  {
    hide ParseUsize, Trim, Valid;
  }

  lemma TakeLineTooLarge(text: seq<byte>, width: nat, h: Headers)
    ensures var a := TakeLine(text, width, h);
      a.Stop? && a.error == HeadersTooLarge <==> !a.Raw? && h.sectionBytes + width > MAX_MCP_HEADER_BYTES
  {
    hide IsRawLine, RawBody, NamesContentLength, ParseLength, FindByte;
    var colon := FindByte(text, COLON);
    if colon < |text| { LengthErrors(text[colon + 1..]); }
  }

  lemma BodyIsNotTooLarge(len: nat, sawHeaders: bool, rest: seq<byte>)
    ensures !TooLarge(ReadBody(len, sawHeaders, rest))
  {
    hide Valid;
  }

  lemma {:induction false} TooLargeFrom(rest: seq<byte>, h: Headers)
    requires h.sectionBytes <= MAX_MCP_HEADER_BYTES
    ensures TooLarge(ParseFrom(rest, h)) <==> SectionFrom(rest, h) > MAX_MCP_HEADER_BYTES
    decreases |rest|
  {
    hide TakeLine, TrimCrlfSuffix, LineOf, ReadBody;
    var line := LineOf(rest);
    if line != [] && |line| <= MAX_MCP_MESSAGE_BYTES {
      var text := TrimCrlfSuffix(line);
      TakeLineTooLarge(text, |line|, h);
      MoreCounts(text, |line|, h);
      match TakeLine(text, |line|, h)
      case More(next) => TooLargeFrom(rest[|line|..], next);
      case Body(len) => BodyIsNotTooLarge(len, h.sawHeaders, rest[|line|..]);
      case _ =>
    }
  }

  /** The header limit is met exactly: by the bytes of the lines counted, never sooner or later. */
  lemma LimitIsExact(rest: seq<byte>)
    ensures TooLarge(Parse(rest)) <==> SectionBytes(rest) > 65536
  {
    hide ParseFrom, SectionFrom;
    TooLargeFrom(rest, FRESH);
  }

  lemma {:induction false} ExtraFrom(rest: seq<byte>, h: Headers, extra: nat)
    requires h.sectionBytes + extra <= MAX_MCP_HEADER_BYTES
    ensures var b := ParseFrom(rest, h.(sectionBytes := h.sectionBytes + extra));
      if SectionFrom(rest, h) + extra > MAX_MCP_HEADER_BYTES then TooLarge(b) else b == ParseFrom(rest, h)
    decreases |rest|
  {
    hide TakeLine, TrimCrlfSuffix, LineOf, ReadBody;
    var line := LineOf(rest);
    if line != [] && |line| <= MAX_MCP_MESSAGE_BYTES {
      var text := TrimCrlfSuffix(line);
      TakeLineExtra(text, |line|, h, extra);
      MoreCounts(text, |line|, h);
      match TakeLine(text, |line|, h)
      case More(next) =>
        if h.sectionBytes + |line| + extra <= MAX_MCP_HEADER_BYTES { ExtraFrom(rest[|line|..], next, extra); }
      case _ =>
    }
  }

  /**
    A reader that saw only the CR of a CRLF behind a framed body reads on as one that
    skipped both, exactly as long as the header section has room for the two bytes.
   */
  lemma HalfSeenNewline(rest: seq<byte>)
    ensures var o := Parse([CR] + [LF] + rest);
      if SectionBytes(rest) + 2 > 65536 then TooLarge(o) else o == Parse(rest)
  {
    hide ParseFrom, SectionFrom;
    LineStepParse([], rest, FRESH);
    assert [] + [CR] + [LF] + rest == [CR] + [LF] + rest;
    BlankIsSkipped();
    ExtraFrom(rest, FRESH, 2);
    assert FRESH.(sectionBytes := FRESH.sectionBytes + 2) == Headers(None, false, false, 2);
  }

  lemma BlankIsSkipped()
    ensures TakeLine([], 2, FRESH) == More(Headers(None, false, false, 2))
  {
    assert !IsRawLine([]);
  }
}
