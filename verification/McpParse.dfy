/** The next message of a stream, as the header loop finds it in the bytes that remain. */
module McpParse {
  import opened Wrappers
  import opened Utf8
  import opened McpText
  import opened McpWriter

  const MAX_MCP_MESSAGE_BYTES := 10 * 1024 * 1024
  const MAX_MCP_HEADER_BYTES := 64 * 1024

  datatype ReadError =
    | EofInHeaders | MissingContentLength | HeadersTooLarge | DuplicateContentLength
    | InvalidContentLength | ContentLengthTooLarge | LineTooLong | EofInBody | BodyNotUtf8

  /** What the header loop has seen of one message. */
  datatype Headers = Headers(contentLength: Option<nat>, sawHeaders: bool, sawOther: bool, sectionBytes: nat)

  const FRESH := Headers(None, false, false, 0)

  /** `after` is what follows the message; a framed message may be followed by a newline that belongs to it. */
  datatype Outcome =
    | EndOfInput
    | Message(body: seq<byte>, hasHeaders: bool, after: seq<byte>)
    | BadBody(after: seq<byte>)
    | Fatal(error: ReadError, responseHasHeaders: bool)

  predicate StartsJson(b: seq<byte>) { b != [] && (b[0] == 123 || b[0] == 91) }

  /** Whether a line is a message by itself, with no headers. */
  predicate IsRawLine(line: seq<byte>) {
    if Valid(line) then StartsJson(TrimStart(line)) else StartsJson(TrimAsciiStart(line))
  }

  function RawBody(line: seq<byte>): seq<byte> { if Valid(line) then line else Lossy(line) }

  predicate NamesContentLength(name: seq<byte>) { Valid(name) && EqIgnoreAsciiCase(Trim(name), CONTENT_LENGTH) }

  function ParseLength(value: seq<byte>): Result<nat, ReadError> {
    if !Valid(value) then Err(InvalidContentLength)
    else
      match ParseUsize(Trim(value))
      case None => Err(InvalidContentLength)
      case Some(len) => if len > MAX_MCP_MESSAGE_BYTES then Err(ContentLengthTooLarge) else Ok(len)
  }

  function ReadBody(len: nat, sawHeaders: bool, rest: seq<byte>): Outcome {
    if |rest| < len then Fatal(EofInBody, true)
    else if !Valid(rest[..len]) then BadBody(rest[len..])
    else Message(rest[..len], sawHeaders, rest[len..])
  }

  /** One header line, already trimmed: the new state of the loop, or the end of it. */
  datatype LineResult =
    | More(headers: Headers)
    | Body(len: nat)
    | Raw(body: seq<byte>)
    | Stop(error: ReadError, responseHasHeaders: bool)

  function TakeLine(text: seq<byte>, width: nat, h: Headers): LineResult {
    if h.contentLength.None? && !h.sawOther && IsRawLine(text) then Raw(RawBody(text))
    else
      var section := h.sectionBytes + width;
      if section > MAX_MCP_HEADER_BYTES then Stop(HeadersTooLarge, h.sawHeaders || h.sawOther || text != [])
      else if text == [] then
        if h.contentLength.Some? then Body(h.contentLength.value)
        else if h.sawOther then Stop(MissingContentLength, true)
        else More(h.(sectionBytes := section))
      else
        var colon := FindByte(text, COLON);
        if colon == |text| || !NamesContentLength(text[..colon])
          then More(h.(sawOther := true, sectionBytes := section))
        else if h.contentLength.Some? then Stop(DuplicateContentLength, true)
        else
          match ParseLength(text[colon + 1..])
          case Err(e) => Stop(e, true)
          case Ok(len) => More(Headers(Some(len), true, h.sawOther, section))
  }

  function AtEnd(h: Headers): Outcome {
    if h.contentLength.Some? then Fatal(EofInHeaders, h.sawHeaders || h.sawOther)
    else if h.sawOther then Fatal(MissingContentLength, true)
    else EndOfInput
  }

  function ParseFrom(rest: seq<byte>, h: Headers): Outcome
    decreases |rest|
  {
    var line := LineOf(rest);
    if |line| > MAX_MCP_MESSAGE_BYTES then Fatal(LineTooLong, h.sawHeaders || h.sawOther)
    else if line == [] then AtEnd(h)
    else
      var after := rest[|line|..];
      match TakeLine(TrimCrlfSuffix(line), |line|, h)
      case Raw(body) => Message(body, false, after)
      case Stop(e, framed) => Fatal(e, framed)
      case Body(len) => ReadBody(len, h.sawHeaders, after)
      case More(next) => ParseFrom(after, next)
  }

  /** The next message of the remaining bytes. */
  function Parse(rest: seq<byte>): Outcome { ParseFrom(rest, FRESH) }

  /** Where the reader may stand after a framed body: past the newline, or at a CRLF it saw only half of. */
  predicate SkipsNewline(after: seq<byte>, rest: seq<byte>) {
    if after != [] && after[0] == LF then rest == after[1..]
    else if |after| >= 2 && after[0] == CR && after[1] == LF then rest == after || rest == after[2..]
    else rest == after
  }
}
