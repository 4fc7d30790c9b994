/** Writing a message: the payload and a newline, after a Content-Length header unless headers are skipped. */
module McpWriter {
  import opened Wrappers
  import opened Utf8
  import opened McpText

  /** "Content-Length: " and two line ends. */
  const CONTENT_LENGTH: seq<byte> := [67, 111, 110, 116, 101, 110, 116, 45, 76, 101, 110, 103, 116, 104]
  const COLON: byte := 58
  const SPACE: byte := 32
  const CONTENT_LENGTH_PREFIX: seq<byte> := CONTENT_LENGTH + [COLON, SPACE]
  const CONTENT_LENGTH_SUFFIX: seq<byte> := [CR, LF, CR, LF]

  function HeaderBytes(len: nat): seq<byte> { CONTENT_LENGTH_PREFIX + Decimal(len) + CONTENT_LENGTH_SUFFIX }

  function EndedByNewline(payload: seq<byte>): seq<byte> {
    if payload != [] && payload[|payload| - 1] == LF then payload else payload + [LF]
  }

  /** The bytes of one message on the wire. */
  function Frame(payload: seq<byte>, skipHeaders: bool): seq<byte> {
    var body := EndedByNewline(payload);
    (if skipHeaders then [] else HeaderBytes(|body|)) + body
  }

  method Copy(out: array<byte>, at: nat, s: seq<byte>)
    requires at + |s| <= out.Length
    modifies out
    ensures out[..] == old(out[..at]) + s + old(out[at + |s|..])
  {
    for i := 0 to |s|
      invariant out[..at] == old(out[..at])
      invariant out[at..at + i] == s[..i]
      invariant out[at + i..] == old(out[at + i..])
    {
      out[at + i] := s[i];
    }
    assert out[..] == out[..at] + out[at..at + |s|] + out[at + |s|..];
  }

  /** The digits are made from the last, in a scratch array, and then copied out. */
  method WriteUsizeDecimal(value: nat, out: array<byte>, at: nat) returns (len: nat)
    requires value <= MAX_USIZE && at + 20 <= out.Length
    modifies out
    ensures len == |Decimal(value)| && at + len <= out.Length
    ensures out[..] == old(out[..at]) + Decimal(value) + old(out[at + len..])
  {
    UsizeDigits(value);
    var digits := new byte[24];
    len := 0;
    var left: nat := value;
    while true
      invariant len <= 20 && left <= MAX_USIZE
      invariant Decimal(left) + digits[24 - len..] == Decimal(value)
      invariant fresh(digits) && digits.Length == 24 && out[..] == old(out[..])
      decreases left
    {
      ghost var tail := digits[24 - len..];
      assert |Decimal(left)| + len == |Decimal(value)|;
      var index := digits.Length - 1 - len;
      digits[index] := DigitOf(left % 10);
      len := len + 1;
      assert digits[24 - len..] == [DigitOf(left % 10)] + tail;
      left := left / 10;
      if left == 0 { break; }
    }
    Copy(out, at, digits[digits.Length - len..]);
  }

  method FormatContentLengthHeader(payloadLen: nat, header: array<byte>) returns (len: nat)
    requires payloadLen <= MAX_USIZE && header.Length == 64
    modifies header
    ensures len <= 64 && header[..len] == HeaderBytes(payloadLen)
  {
    UsizeDigits(payloadLen);
    var cursor := 0;
    Copy(header, cursor, CONTENT_LENGTH_PREFIX);
    cursor := cursor + |CONTENT_LENGTH_PREFIX|;
    var width := WriteUsizeDecimal(payloadLen, header, cursor);
    assert header[..cursor + width] == CONTENT_LENGTH_PREFIX + Decimal(payloadLen);
    cursor := cursor + width;
    ghost var front := header[..cursor];
    Copy(header, cursor, CONTENT_LENGTH_SUFFIX);
    assert header[..cursor] == front;
    assert header[cursor..cursor + 4] == CONTENT_LENGTH_SUFFIX;
    len := cursor + |CONTENT_LENGTH_SUFFIX|;
    assert header[..len] == header[..cursor] + header[cursor..len];
  }

  /** An output stream. */
  class Writer {
    var output: seq<byte>

    constructor ()
      ensures output == []
    {
      output := [];
    }

    method WriteMcpPayloadWithMode(payload: seq<byte>, skipHeaders: bool)
      requires |payload| < MAX_USIZE
      modifies this
      ensures output == old(output) + Frame(payload, skipHeaders)
    {
      var body := payload;
      if body == [] || body[|body| - 1] != LF { body := body + [LF]; }
      if !skipHeaders {
        var header := new byte[64];
        var headerLen := FormatContentLengthHeader(|body|, header);
        output := output + header[..headerLen];
      }
      output := output + body;
    }
  }
}
