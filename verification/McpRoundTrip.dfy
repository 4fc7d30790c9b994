/**
  What is written is what is read: any sequence of messages, framed or raw,
  delivered in pieces of any size. A framed body that is not UTF-8 costs that
  message alone.
 */
module McpRoundTrip {
  import opened Wrappers
  import opened Utf8
  import opened McpText
  import opened McpWriter
  import opened McpParse
  import opened McpReader

  /** A compact JSON object or array, short enough to be read back. */
  predicate Compact(payload: seq<byte>) {
    && Valid(payload) && StartsJson(payload) && LF !in payload && CR !in payload
    && |payload| + 1 <= MAX_MCP_MESSAGE_BYTES
  }

  /** What a peer sends: a message in either framing, or a framed body that is not UTF-8. */
  datatype Item = Sent(payload: seq<byte>, skipHeaders: bool) | Garbled(bytes: seq<byte>)

  predicate Proper(item: Item) {
    match item
    case Sent(payload, _) => Compact(payload)
    case Garbled(bytes) => !Valid(bytes) && |bytes| <= MAX_MCP_MESSAGE_BYTES
  }

  function Bytes(item: Item): seq<byte> {
    match item
    case Sent(payload, skipHeaders) => Frame(payload, skipHeaders)
    case Garbled(bytes) => HeaderBytes(|bytes|) + bytes
  }

  function Wire(items: seq<Item>): seq<byte> {
    if items == [] then [] else Bytes(items[0]) + Wire(items[1..])
  }

  /** A framed body keeps the newline its length counts; a raw line loses it. */
  function Expected(item: Item): Result<McpMessage, McpReadError> {
    match item
    case Sent(payload, skipHeaders) => Ok(McpMessage(if skipHeaders then payload else payload + [LF], !skipHeaders))
    case Garbled(_) => Err(McpReadError(BodyNotUtf8, true, true))
  }

  function AllExpected(items: seq<Item>): seq<Result<McpMessage, McpReadError>> {
    if items == [] then [] else [Expected(items[0])] + AllExpected(items[1..])
  }

  // --- ASCII ----------------------------------------------------------------

  predicate Ascii(b: seq<byte>) { forall k :: 0 <= k < |b| ==> b[k] <= 0x7F }

  lemma {:induction false} AsciiValid(b: seq<byte>)
    requires Ascii(b)
    ensures Valid(b)
  {
    if b != [] { AsciiValid(b[1..]); }
  }

  predicate Visible(x: byte) { 0x20 < x <= 0x7F }

  lemma {:induction false} TrimVisible(b: seq<byte>)
    requires forall k :: 0 <= k < |b| ==> Visible(b[k])
    ensures TrimStart(b) == b && TrimEnd(b) == b
  {
    if b != [] { TrimVisible(b[1..]); }
  }

  // --- One message ----------------------------------------------------------

  function HeaderText(len: nat): seq<byte> { CONTENT_LENGTH_PREFIX + Decimal(len) }

  lemma HeaderSplits(len: nat, tail: seq<byte>)
    ensures HeaderBytes(len) + tail == HeaderText(len) + [CR] + [LF] + ([CR] + [LF] + tail)
  {
  }

  lemma HeaderIsPlain(len: nat)
    ensures Ascii(HeaderText(len)) && LF !in HeaderText(len) && CR !in HeaderText(len)
    ensures |HeaderText(len)| == 16 + |Decimal(len)| && HeaderText(len)[0] == 67
  {
  }

  lemma TrimLineEnd(text: seq<byte>)
    requires LF !in text && CR !in text
    ensures TrimCrlfSuffix(text + [CR] + [LF]) == text && TrimCrlfSuffix(text + [LF]) == text
  {
    assert (text + [CR] + [LF])[..|text| + 1] == text + [CR] && (text + [CR])[..|text|] == text;
    assert (text + [LF])[..|text|] == text;
    if text != [] { assert text[|text| - 1] in text; }
    assert TrimCrlfSuffix(text) == text;
    assert TrimCrlfSuffix(text + [CR]) == text;
  }

  lemma ColonInHeader(len: nat)
    ensures FindByte(HeaderText(len), COLON) == 14
    ensures HeaderText(len)[..14] == CONTENT_LENGTH && HeaderText(len)[15..] == [SPACE] + Decimal(len)
  {
    hide Decimal;
    var text := HeaderText(len);
    assert forall k :: 0 <= k < 14 ==> text[..14][k] == CONTENT_LENGTH[k] && CONTENT_LENGTH[k] != COLON;
    FirstAt(text, COLON, 14);
  }

  lemma {:induction false} FirstAt(b: seq<byte>, x: byte, i: nat)
    requires i < |b| && b[i] == x && x !in b[..i]
    ensures FindByte(b, x) == i
  {
    if i > 0 {
      assert b[0] == b[..i][0];
      assert b[1..][..i - 1] == b[..i][1..];
      FirstAt(b[1..], x, i - 1);
    }
  }

  lemma NameIsContentLength()
    ensures NamesContentLength(CONTENT_LENGTH)
  {
    hide Valid, TrimStart, TrimEnd;
    AsciiValid(CONTENT_LENGTH);
    TrimVisible(CONTENT_LENGTH);
  }

  lemma LengthParses(len: nat)
    requires len <= MAX_MCP_MESSAGE_BYTES
    ensures ParseLength([SPACE] + Decimal(len)) == Ok(len)
  {
    var value := [SPACE] + Decimal(len);
    AsciiValid(value);
    TrimVisible(Decimal(len));
    assert value[1..] == Decimal(len);
    assert SpaceLen(value) == 1;
    assert TrimStart(value) == Decimal(len);
    UsizeRoundTrip(len);
  }

  lemma HeaderLineTaken(len: nat)
    requires len <= MAX_MCP_MESSAGE_BYTES
    ensures TakeLine(HeaderText(len), |HeaderText(len)| + 2, FRESH) ==
            More(Headers(Some(len), true, false, |HeaderText(len)| + 2))
  {
    hide FindByte, NamesContentLength, ParseLength, Valid, Decimal;
    var text := HeaderText(len);
    HeaderIsPlain(len);
    AsciiValid(text);
    assert !IsRawLine(text) by { assert SpaceLen(text) == 0; }
    ColonInHeader(len);
    NameIsContentLength();
    LengthParses(len);
    UsizeDigits(len);
    hide HeaderText;
    assert text[14 + 1..] == [SPACE] + Decimal(len);
  }

  lemma BlankLineTaken(len: nat, section: nat)
    requires section + 2 <= MAX_MCP_HEADER_BYTES
    ensures TakeLine([], 2, Headers(Some(len), true, false, section)) == McpParse.Body(len)
  {
  }

  function AfterLine(r: LineResult, h: Headers, rest: seq<byte>): Outcome {
    match r
    case Raw(body) => Message(body, false, rest)
    case Stop(e, framed) => Fatal(e, framed)
    case Body(len) => ReadBody(len, h.sawHeaders, rest)
    case More(headers) => ParseFrom(rest, headers)
  }

  /** One header line and its CRLF are taken off the front. */
  lemma LineStepParse(text: seq<byte>, rest: seq<byte>, h: Headers)
    requires LF !in text && CR !in text && |text| + 2 <= MAX_MCP_MESSAGE_BYTES
    ensures ParseFrom(text + [CR] + [LF] + rest, h) == AfterLine(TakeLine(text, |text| + 2, h), h, rest)
  {
    hide TakeLine, TrimCrlfSuffix, LineOf, ReadBody;
    var all := text + [CR] + [LF] + rest;
    LineEndsAt(text + [CR], rest);
    TrimLineEnd(text);
    assert all[|text + [CR] + [LF]|..] == rest;
  }

  /** The header that is written is read as the length it was written with. */
  lemma HeaderParses(len: nat, tail: seq<byte>)
    requires len <= MAX_MCP_MESSAGE_BYTES
    ensures Parse(HeaderBytes(len) + tail) == ReadBody(len, true, tail)
  {
    hide ParseFrom, TakeLine, ReadBody, HeaderText, HeaderBytes;
    HeaderSplits(len, tail);
    HeaderIsPlain(len);
    UsizeDigits(len);
    HeaderLineTaken(len);
    LineStepParse(HeaderText(len), [CR] + [LF] + tail, FRESH);
    var section := |HeaderText(len)| + 2;
    BlankLineTaken(len, section);
    LineStepParse([], tail, Headers(Some(len), true, false, section));
    assert [] + [CR] + [LF] + tail == [CR] + [LF] + tail;
  }

  lemma RawParses(payload: seq<byte>, rest: seq<byte>)
    requires Compact(payload)
    ensures Parse(payload + [LF] + rest) == Message(payload, false, rest)
  {
    hide TrimCrlfSuffix, LineOf, Valid;
    var all := payload + [LF] + rest;
    LineEndsAt(payload, rest);
    TrimLineEnd(payload);
    assert all[|payload + [LF]|..] == rest;
    assert SpaceLen(payload) == 0;
    assert IsRawLine(payload);
  }

  lemma BodyParses(body: seq<byte>, rest: seq<byte>)
    ensures ReadBody(|body|, true, body + rest) == if Valid(body) then Message(body, true, rest) else BadBody(rest)
  {
    hide Valid;
    assert (body + rest)[..|body|] == body && (body + rest)[|body|..] == rest;
  }

  lemma NewlineKeepsValid(payload: seq<byte>)
    requires Valid(payload)
    ensures Valid(payload + [LF])
  {
    assert [LF][1..] == [];
    ValidConcat(payload, [LF]);
  }

  /** Each item is read as what it is, and the reader stands right behind it. */
  lemma ItemParses(item: Item, rest: seq<byte>)
    requires Proper(item)
    ensures var o := Parse(Bytes(item) + rest);
      match item
      case Sent(payload, skip) => o == Message(Expected(item).value.body, !skip, rest)
      case Garbled(_) => o == BadBody(rest)
  {
    hide Parse, ReadBody, HeaderBytes, Valid;
    match item
    case Sent(payload, skip) =>
      var body := payload + [LF];
      PayloadEnds(payload);
      if skip {
        RawParses(payload, rest);
        assert Bytes(item) + rest == payload + [LF] + rest;
      } else {
        HeaderParses(|body|, body + rest);
        NewlineKeepsValid(payload);
        BodyParses(body, rest);
        assert Bytes(item) + rest == HeaderBytes(|body|) + (body + rest);
      }
    case Garbled(bytes) =>
      HeaderParses(|bytes|, bytes + rest);
      BodyParses(bytes, rest);
      assert Bytes(item) + rest == HeaderBytes(|bytes|) + (bytes + rest);
  }

  lemma PayloadEnds(payload: seq<byte>)
    requires Compact(payload)
    ensures EndedByNewline(payload) == payload + [LF]
  {
    hide Valid;
    assert payload[|payload| - 1] in payload;
  }

  lemma WireStart(items: seq<Item>)
    requires forall k :: 0 <= k < |items| ==> Proper(items[k])
    ensures Wire(items) != [] ==> Wire(items)[0] != LF && Wire(items)[0] != CR
    ensures Wire(items) == [] <==> items == []
  {
    hide Valid;
    if items != [] {
      assert Proper(items[0]);
      assert HeaderBytes(0)[0] == 67;
      if items[0].Sent? { PayloadEnds(items[0].payload); }
      assert Bytes(items[0]) != [] && Wire(items)[0] == Bytes(items[0])[0];
    }
  }

  lemma {:induction false} WireSnoc(items: seq<Item>, item: Item)
    ensures Wire(items + [item]) == Wire(items) + Bytes(item)
  {
    if items == [] {
      assert [item][1..] == [] && items + [item] == [item];
    } else {
      assert (items + [item])[1..] == items[1..] + [item];
      WireSnoc(items[1..], item);
    }
  }

  // --- Whole streams --------------------------------------------------------

  /** Writes messages one after another. */
  method WriteAll(writer: Writer, items: seq<Item>)
    requires forall k :: 0 <= k < |items| ==> items[k].Sent? && Proper(items[k])
    modifies writer
    ensures writer.output == old(writer.output) + Wire(items)
  {
    hide Frame, Valid;
    for i := 0 to |items|
      invariant writer.output == old(writer.output) + Wire(items[..i])
    {
      assert items[..i + 1] == items[..i] + [items[i]];
      WireSnoc(items[..i], items[i]);
      assert Proper(items[i]);
      writer.WriteMcpPayloadWithMode(items[i].payload, items[i].skipHeaders);
    }
    assert items[..|items|] == items;
  }

  /**
    Reads until the stream ends or fails for good. When the bytes are those of
    some items, their pieces do not matter: every message comes back in order
    with its framing, every garbled body as one recoverable error.
   */
  method ReadAll(stream: BufferedStream, ghost items: seq<Item>)
    returns (results: seq<Result<McpMessage, McpReadError>>)
    requires stream.Valid() && stream.Rest() == Wire(items)
    requires forall k :: 0 <= k < |items| ==> Proper(items[k])
    modifies stream
    ensures results == AllExpected(items)
    ensures stream.Rest() == []
  {
    hide Wire, AllExpected, Proper, Parse, Expected, SkipsNewline;
    results := [];
    ghost var left := items;
    while true
      invariant stream.Valid() && stream.Rest() == Wire(left)
      invariant forall k :: 0 <= k < |left| ==> Proper(left[k])
      invariant results + AllExpected(left) == AllExpected(items)
      decreases |left|
    {
      NextItem(left);
      var r := stream.ReadMcpMessage();
      match r {
        case Ok(None) =>
          assert left == [];
          return;
        case Ok(Some(message)) => results := results + [Ok(message)];
        case Err(error) =>
          results := results + [Err(error)];
          if !error.shouldContinue { break; }
      }
      left := left[1..];
    }
  }

  /** What the next read of some items gives, and what it leaves. */
  lemma NextItem(items: seq<Item>)
    requires forall k :: 0 <= k < |items| ==> Proper(items[k])
    ensures items == [] ==> Parse(Wire(items)) == EndOfInput && AllExpected(items) == []
    ensures items != [] ==>
      var o, rest := Parse(Wire(items)), Wire(items[1..]);
      && AllExpected(items) == [Expected(items[0])] + AllExpected(items[1..])
      && (items[0].Garbled? ==> o == BadBody(rest) && Expected(items[0]) == Err(McpReadError(BodyNotUtf8, true, true)))
      && (items[0].Sent? ==>
        && o.Message? && o.after == rest && Expected(items[0]) == Ok(McpMessage(o.body, o.hasHeaders))
        && forall left :: SkipsNewline(rest, left) ==> left == rest)
  {
    hide Bytes, Proper, Parse, Expected;
    if items == [] {
      EmptyParses();
    } else {
      ItemParses(items[0], Wire(items[1..]));
      WireStart(items[1..]);
      ExpectedKind(items[0]);
    }
  }

  lemma EmptyParses()
    ensures Parse([]) == EndOfInput
  {
  }

  lemma ExpectedKind(item: Item)
    ensures item.Garbled? ==> Expected(item) == Err(McpReadError(BodyNotUtf8, true, true))
    ensures item.Sent? ==> Expected(item).Ok? && Expected(item).value.hasHeaders == !item.skipHeaders
  {
  }
}
