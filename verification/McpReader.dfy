/** The reader: a buffered stream that sees only what has arrived, proved against the parse of all that remains. */
module McpReader {
  import opened Wrappers
  import opened Utf8
  import opened McpText
  import opened McpParse
  import McpWriter

  datatype McpMessage = McpMessage(body: seq<byte>, hasHeaders: bool)

  datatype McpReadError = McpReadError(error: ReadError, responseHasHeaders: bool, shouldContinue: bool)

  function Flatten(pieces: seq<seq<byte>>): seq<byte> {
    if pieces == [] then [] else pieces[0] + Flatten(pieces[1..])
  }

  /** A buffered stream: what is in the buffer, and the pieces still to arrive. */
  class BufferedStream {
    var buffer: seq<byte>
    var pending: seq<seq<byte>>

    predicate Valid()
      reads this
    {
      forall k :: 0 <= k < |pending| ==> pending[k] != []
    }

    function Rest(): seq<byte>
      reads this
    {
      buffer + Flatten(pending)
    }

    constructor (pieces: seq<seq<byte>>)
      requires forall k :: 0 <= k < |pieces| ==> pieces[k] != []
      ensures Valid() && Rest() == Flatten(pieces)
    {
      buffer, pending := [], pieces;
    }

    /** What is buffered, after waiting for a piece if there is nothing. */
    method FillBuf() returns (available: seq<byte>)
      requires Valid()
      modifies this
      ensures Valid() && Rest() == old(Rest())
      ensures available == buffer && buffer <= Rest()
      ensures available == [] <==> Rest() == []
    {
      if buffer == [] && pending != [] {
        assert pending[0] + Flatten(pending[1..]) == Flatten(pending);
        assert forall k :: 0 <= k < |pending[1..]| ==> pending[1..][k] == pending[k + 1];
        buffer, pending := pending[0], pending[1..];
      }
      available := buffer;
    }

    method Consume(n: nat)
      requires Valid() && n <= |buffer|
      modifies this
      ensures Valid() && n <= |old(Rest())| && Rest() == old(Rest())[n..]
    {
      assert (buffer + Flatten(pending))[n..] == buffer[n..] + Flatten(pending);
      buffer := buffer[n..];
    }

    /** Exactly `len` bytes, or `None` when the stream ends before. */
    method ReadExact(len: nat) returns (r: Option<seq<byte>>)
      requires Valid()
      modifies this
      ensures Valid()
      ensures len <= |old(Rest())| ==> r == Some(old(Rest())[..len]) && Rest() == old(Rest())[len..]
      ensures len > |old(Rest())| ==> r == None
    {
      var buf := [];
      while |buf| < len
        invariant Valid() && |buf| <= len && buf + Rest() == old(Rest())
      {
        var available := FillBuf();
        if available == [] { return None; }
        var take := if |available| < len - |buf| then |available| else len - |buf|;
        ghost var before := Rest();
        assert buf + before == (buf + before[..take]) + before[take..];
        assert available[..take] == before[..take];
        Consume(take);
        buf := buf + available[..take];
      }
      assert old(Rest())[..len] == buf;
      r := Some(buf);
    }

    /** The next line with its LF, at most `MAX_MCP_MESSAGE_BYTES` long; empty at the end of the stream. */
    method ReadLineBytesBounded(responseHasHeaders: bool) returns (r: Result<seq<byte>, McpReadError>)
      requires Valid()
      modifies this
      ensures Valid()
      ensures var line := LineOf(old(Rest()));
        if |line| > MAX_MCP_MESSAGE_BYTES then r == Err(McpReadError(LineTooLong, responseHasHeaders, false))
        else r == Ok(line) && Rest() == old(Rest())[|line|..]
    {
      hide LineOf, FindByte;
      var lineBytes := [];
      ghost var whole := Rest();
      while true
        invariant Valid() && lineBytes + Rest() == whole && LF !in lineBytes
        invariant |lineBytes| <= MAX_MCP_MESSAGE_BYTES
        decreases |Rest()|
      {
        var available := FillBuf();
        ghost var rest := Rest();
        if available == [] {
          LineAtEnd(lineBytes);
          assert lineBytes + [] == lineBytes && whole[|lineBytes|..] == [];
          return Ok(lineBytes);
        }
        var newline := FindByte(available, LF);
        var take := if newline < |available| then newline + 1 else |available|;
        LineStep(lineBytes, available, rest);
        if |lineBytes| + take > MAX_MCP_MESSAGE_BYTES {
          return Err(McpReadError(LineTooLong, responseHasHeaders, false));
        }
        var reachedNewline := available[take - 1] == LF;
        lineBytes := lineBytes + available[..take];
        Consume(take);
        if reachedNewline { return Ok(lineBytes); }
      }
    }

    /** Past the newline; a CRLF is left only when no more than its first byte is buffered. */
    predicate StandsBehind(after: seq<byte>)
      reads this
    {
      && SkipsNewline(after, Rest())
      && (|after| >= 2 && after[0] == CR && after[1] == LF && Rest() == after ==> |buffer| == 1)
    }

    /** Past one newline after a framed body, as far as it is buffered. */
    method SkipTrailingNewline()
      requires Valid()
      modifies this
      ensures Valid() && StandsBehind(old(Rest()))
    {
      var trailing := FillBuf();
      if |trailing| >= 2 && trailing[0] == CR && trailing[1] == LF {
        Consume(2);
      } else if |trailing| >= 1 && trailing[0] == LF {
        Consume(1);
      }
    }

    /** Reads one message. Whatever the pieces, the result is that of `Parse` on the bytes that remain. */
    method ReadMcpMessage() returns (r: Result<Option<McpMessage>, McpReadError>)
      requires Valid()
      modifies this
      ensures Valid()
      ensures match Parse(old(Rest()))
        case EndOfInput => r == Ok(None) && Rest() == []
        case Message(body, framed, after) =>
          && r == Ok(Some(McpMessage(body, framed)))
          && if framed then StandsBehind(after) else Rest() == after
        case BadBody(after) => r == Err(McpReadError(BodyNotUtf8, true, true)) && Rest() == after
        case Fatal(e, framed) => r == Err(McpReadError(e, framed, false))
    {
      hide LineOf, TrimCrlfSuffix, TakeLine, SkipsNewline, Utf8.Valid;
      ghost var outcome := Parse(Rest());
      var contentLength: Option<nat> := None;
      var sawHeaders, sawOther := false, false;
      var sectionBytes: nat := 0;
      while true
        invariant Valid()
        invariant contentLength.Some? ==> sawHeaders
        invariant ParseFrom(Rest(), Headers(contentLength, sawHeaders, sawOther, sectionBytes)) == outcome
        decreases |Rest()|
      {
        var read := ReadLineBytesBounded(sawHeaders || sawOther);
        if read.Err? { return Err(read.error); }
        var line := read.value;
        if line == [] {
          if contentLength.Some? { return Err(McpReadError(EofInHeaders, sawHeaders || sawOther, false)); }
          if sawOther { return Err(McpReadError(MissingContentLength, true, false)); }
          return Ok(None);
        }
        match TakeLine(TrimCrlfSuffix(line), |line|, Headers(contentLength, sawHeaders, sawOther, sectionBytes)) {
          case Raw(body) => return Ok(Some(McpMessage(body, false)));
          case Stop(e, framed) => return Err(McpReadError(e, framed, false));
          case Body(len) =>
            assert sawHeaders by {
              LengthComesWithHeaders(TrimCrlfSuffix(line), |line|,
                                     Headers(contentLength, sawHeaders, sawOther, sectionBytes));
            }
            var body := ReadFramedBody(len, sawHeaders);
            return body;
          case More(next) =>
            LengthComesWithHeaders(TrimCrlfSuffix(line), |line|,
                                   Headers(contentLength, sawHeaders, sawOther, sectionBytes));
            contentLength, sawHeaders := next.contentLength, next.sawHeaders;
            sawOther, sectionBytes := next.sawOther, next.sectionBytes;
        }
      }
    }

    method ReadFramedBody(len: nat, sawHeaders: bool) returns (r: Result<Option<McpMessage>, McpReadError>)
      requires Valid() && sawHeaders
      modifies this
      ensures Valid()
      ensures match ReadBody(len, sawHeaders, old(Rest()))
        case EndOfInput => false
        case Message(body, framed, after) =>
          framed && r == Ok(Some(McpMessage(body, true))) && StandsBehind(after)
        case BadBody(after) => r == Err(McpReadError(BodyNotUtf8, true, true)) && Rest() == after
        case Fatal(e, framed) => r == Err(McpReadError(e, framed, false))
    {
      hide SkipsNewline, Utf8.Valid;
      var buf := ReadExact(len);
      if buf.None? { return Err(McpReadError(EofInBody, true, false)); }
      if !Utf8.Valid(buf.value) { return Err(McpReadError(BodyNotUtf8, true, true)); }
      SkipTrailingNewline();
      r := Ok(Some(McpMessage(buf.value, sawHeaders)));
    }
  }

  lemma LengthComesWithHeaders(text: seq<byte>, width: nat, h: Headers)
    requires h.contentLength.Some? ==> h.sawHeaders
    ensures var r := TakeLine(text, width, h);
      (r.Body? ==> h.sawHeaders) && (r.More? && r.headers.contentLength.Some? ==> r.headers.sawHeaders)
  {
    hide IsRawLine, NamesContentLength, ParseLength, FindByte;
  }

  lemma LineAtEnd(line: seq<byte>)
    requires LF !in line
    ensures LineOf(line + []) == line
  {
    LineAfter(line, []);
  }

  lemma LineInBuffer(available: seq<byte>, rest: seq<byte>, newline: nat)
    requires available <= rest && newline == FindByte(available, LF) < |available|
    ensures LineOf(rest) == available[..newline + 1]
  {
    hide LineOf, FindByte;
    LineEndsAt(available[..newline], rest[newline + 1..]);
    assert rest == available[..newline] + [LF] + rest[newline + 1..];
    assert available[..newline + 1] == available[..newline] + [LF];
  }

  lemma LineBeyondBuffer(available: seq<byte>, rest: seq<byte>)
    requires available <= rest && FindByte(available, LF) == |available|
    ensures LF !in available && LineOf(rest) == available + LineOf(rest[|available|..])
  {
    hide LineOf, FindByte;
    assert available[..|available|] == available;
    assert rest == available + rest[|available|..];
    LineAfter(available, rest[|available|..]);
  }

  /** How a line grows by what is buffered: to its end, or by the whole buffer. */
  lemma LineStep(line: seq<byte>, available: seq<byte>, rest: seq<byte>)
    requires LF !in line && available <= rest && available != []
    ensures var newline := FindByte(available, LF);
      var take := if newline < |available| then newline + 1 else |available|;
      && (available[take - 1] == LF <==> newline < |available|)
      && line + rest == (line + available[..take]) + rest[take..] && (line + rest)[|line| + take..] == rest[take..]
      && |LineOf(line + rest)| >= |line| + take
      && (newline < |available| ==> LineOf(line + rest) == line + available[..take])
      && (newline == |available| ==> LF !in line + available[..take])
  {
    hide LineOf, FindByte;
    var newline := FindByte(available, LF);
    var take := if newline < |available| then newline + 1 else |available|;
    if newline < |available| { LineInBuffer(available, rest, newline); } else { LineBeyondBuffer(available, rest); }
    LineAfter(line, rest);
    assert rest == available[..take] + rest[take..];
    assert line + rest == (line + available[..take]) + rest[take..];
  }
}
