/**
  What the reader makes of a header section, line by line: a length in any spelling
  among any other lines is the length of the body; none, two, or one that is too
  large is an error; and a line that begins as JSON is a message by itself.
 */
module McpReaderLaws {
  import opened Wrappers
  import opened Sequences
  import opened Utf8
  import opened McpText
  import opened McpWriter
  import opened McpParse
  import opened McpRoundTrip
  import opened McpHeaderLaws

  // --- Lines ----------------------------------------------------------------

  function End(crlf: bool): seq<byte> { if crlf then [13, 10] else [10] }

  /** The text of a line: without its newline, and not ending in another. */
  predicate LineText(text: seq<byte>) { 10 !in text && (text != [] ==> text[|text| - 1] != 13) }

  /** A line that begins as JSON, after what counts as white space in it. */
  ghost predicate BeginsJson(text: seq<byte>) {
    exists k :: 0 <= k < |text| && JsonAt(text, k)
  }

  ghost predicate JsonAt(text: seq<byte>, k: nat)
    requires k < |text|
  {
    (text[k] == 123 || text[k] == 91) && if Valid(text) then Blank(text[..k]) else AsciiBlank(text[..k])
  }

  predicate AsciiBlank(b: seq<byte>) { forall k :: 0 <= k < |b| ==> b[k] in [9, 10, 12, 13, 32] }

  ghost predicate Announces(text: seq<byte>) {
    exists c :: 0 <= c < |text| && text[c] == 58 && 58 !in text[..c] && NamesLength(text[..c])
  }

  /** A header line with nothing to say about the length. */
  ghost predicate Other(text: seq<byte>) { text != [] && LineText(text) && !BeginsJson(text) && !Announces(text) }

  lemma {:induction false} AsciiTrimLeaves(b: seq<byte>) returns (k: nat)
    ensures k <= |b| && AsciiBlank(b[..k]) && b[k..] == TrimAsciiStart(b)
    ensures k < |b| ==> !IsAsciiSpace(b[k])
    decreases |b|
  {
    if b != [] && IsAsciiSpace(b[0]) {
      var deeper := AsciiTrimLeaves(b[1..]);
      k := deeper + 1;
      assert b[k..] == b[1..][deeper..] && b[..k] == [b[0]] + b[1..][..deeper];
      if k < |b| { assert b[k] == b[1..][deeper]; }
    } else {
      k := 0;
      assert b[0..] == b;
    }
  }

  lemma SpaceWithin(b: seq<byte>, i: nat, k: nat)
    requires k < i <= |b| && AsciiBlank(b[..i])
    ensures IsAsciiSpace(b[k])
  {
    assert b[..i][k] == b[k];
  }

  /** Only one place can be the end of the white space. */
  lemma AsciiEnd(b: seq<byte>, i: nat, k: nat)
    requires i < |b| && k <= |b| && AsciiBlank(b[..i]) && AsciiBlank(b[..k])
    requires !IsAsciiSpace(b[i]) && (k < |b| ==> !IsAsciiSpace(b[k]))
    ensures i == k
  {
    if k < i { SpaceWithin(b, i, k); }
    if i < k { SpaceWithin(b, k, i); }
  }

  /** The reader takes exactly such lines for messages. */
  lemma RawLineExactly(text: seq<byte>)
    ensures IsRawLine(text) <==> BeginsJson(text)
  {
    if Valid(text) {
      RawValidLine(text);
    } else {
      var k := AsciiTrimLeaves(text);
      if k < |text| { assert text[k..][0] == text[k]; }
      if IsRawLine(text) { assert JsonAt(text, k); }
      if BeginsJson(text) {
        var i :| 0 <= i < |text| && JsonAt(text, i);
        AsciiEnd(text, i, k);
      }
    }
  }

  lemma RawValidLine(text: seq<byte>)
    requires Valid(text)
    ensures StartsJson(TrimStart(text)) <==> BeginsJson(text)
  {
    hide Valid, Blank;
    if StartsJson(TrimStart(text)) {
      var k := TrimStartLeaves(text);
      assert text[k..][0] == text[k];
      assert JsonAt(text, k);
    }
    if BeginsJson(text) {
      var k :| 0 <= k < |text| && JsonAt(text, k);
      assert text == text[..k] + text[k..];
      TrimStartSkips(text[..k], text[k..]);
      NothingToTrim(text[k..]);
    }
  }

  lemma FirstColon(text: seq<byte>, c: nat)
    requires c < |text| && text[c] == 58 && 58 !in text[..c]
    ensures FindByte(text, COLON) == c
  {
    FirstAt(text, COLON, c);
  }

  lemma OtherAnnouncesNothing(text: seq<byte>)
    requires Other(text)
    ensures var c := FindByte(text, COLON); c == |text| || !NamesContentLength(text[..c])
  {
    var c := FindByte(text, COLON);
    if c < |text| { NameExactly(text[..c]); }
  }

  /** One line is taken off the front, whichever newline ends it. */
  lemma LineTaken(text: seq<byte>, crlf: bool, rest: seq<byte>, h: Headers)
    requires LineText(text) && |text| + 2 <= 10485760
    ensures ParseFrom(text + End(crlf) + rest, h) == AfterLine(TakeLine(text, |text| + |End(crlf)|, h), h, rest)
  {
    hide TakeLine, TrimCrlfSuffix, LineOf, ReadBody;
    var all, line := text + End(crlf) + rest, text + End(crlf);
    LineOfText(text, crlf, rest);
    EndTrimmed(text, crlf);
    assert all[|line|..] == rest;
  }

  lemma LineOfText(text: seq<byte>, crlf: bool, rest: seq<byte>)
    requires 10 !in text
    ensures LineOf(text + End(crlf) + rest) == text + End(crlf)
  {
    hide LineOf;
    if crlf {
      LineEndsAt(text + [13], rest);
      assert text + [13] + [10] == text + [13, 10];
    } else {
      LineEndsAt(text, rest);
    }
  }

  lemma EndTrimmed(text: seq<byte>, crlf: bool)
    requires LineText(text)
    ensures TrimCrlfSuffix(text + End(crlf)) == text
  {
    if text != [] { assert text[|text| - 1] in text; }
    assert TrimCrlfSuffix(text) == text;
    if crlf {
      assert (text + [13, 10])[..|text| + 1] == text + [13] && (text + [13])[..|text|] == text;
      assert TrimCrlfSuffix(text + [13]) == text;
    } else {
      assert (text + [10])[..|text|] == text;
    }
  }

  // --- Lines that do not matter ---------------------------------------------

  datatype Line = Line(text: seq<byte>, crlf: bool)

  function Render(lines: seq<Line>): seq<byte> {
    if lines == [] then [] else lines[0].text + End(lines[0].crlf) + Render(lines[1..])
  }

  ghost predicate AllOther(lines: seq<Line>) { forall k :: 0 <= k < |lines| ==> Other(lines[k].text) }

  predicate AllEmpty(lines: seq<Line>) { forall k :: 0 <= k < |lines| ==> lines[k].text == [] }

  lemma OtherTaken(text: seq<byte>, width: nat, h: Headers)
    requires Other(text) && h.sectionBytes + width <= 65536
    ensures TakeLine(text, width, h) == More(h.(sawOther := true, sectionBytes := h.sectionBytes + width))
  {
    hide IsRawLine, NamesContentLength, BeginsJson, Announces, FindByte;
    RawLineExactly(text);
    OtherAnnouncesNothing(text);
  }

  lemma RenderHead(lines: seq<Line>, rest: seq<byte>)
    requires lines != []
    ensures Render(lines) + rest == lines[0].text + End(lines[0].crlf) + (Render(lines[1..]) + rest)
    ensures |Render(lines)| == |lines[0].text| + |End(lines[0].crlf)| + |Render(lines[1..])|
  {
    hide End;
    Join3(lines[0].text + End(lines[0].crlf), Render(lines[1..]), rest);
  }

  /** What is known after `n` more bytes of lines that say nothing about the length. */
  function After(h: Headers, other: bool, n: nat): Headers {
    Headers(h.contentLength, h.sawHeaders, h.sawOther || other, h.sectionBytes + n)
  }

  lemma AfterTwice(h: Headers, a: bool, m: nat, b: bool, n: nat)
    ensures After(After(h, a, m), b, n) == After(h, a || b, m + n)
  {
  }

  lemma NoLines(rest: seq<byte>, h: Headers)
    ensures Render([]) == [] && Render([]) + rest == rest && After(h, false, 0) == h
  {
  }

  lemma {:induction false} OthersSkipped(lines: seq<Line>, rest: seq<byte>, h: Headers)
    requires AllOther(lines) && h.sectionBytes + |Render(lines)| <= 65536
    ensures ParseFrom(Render(lines) + rest, h) == ParseFrom(rest, After(h, lines != [], |Render(lines)|))
    decreases |lines|
  {
    hide Render, ParseFrom, AllOther, Other, End;
    if lines == [] {
      NoLines(rest, h);
    } else {
      var l, tail := lines[0], lines[1..];
      var width := |l.text| + |End(l.crlf)|;
      RenderHead(lines, rest);
      TailOther(lines);
      OtherSkipped(l, Render(tail) + rest, h);
      OthersSkipped(tail, rest, After(h, true, width));
      hide After;
      AfterTwice(h, true, width, tail != [], |Render(tail)|);
    }
  }

  lemma OtherSkipped(l: Line, rest: seq<byte>, h: Headers)
    requires Other(l.text) && h.sectionBytes + |l.text| + |End(l.crlf)| <= 65536
    ensures ParseFrom(l.text + End(l.crlf) + rest, h) ==
            ParseFrom(rest, After(h, true, |l.text| + |End(l.crlf)|))
  {
    hide ParseFrom, TakeLine, Other, End;
    OtherIsLine(l.text);
    EndIsShort(l.crlf);
    LineTaken(l.text, l.crlf, rest, h);
    OtherTaken(l.text, |l.text| + |End(l.crlf)|, h);
  }

  lemma EndIsShort(crlf: bool)
    ensures 1 <= |End(crlf)| <= 2
  {
  }

  lemma OtherIsLine(text: seq<byte>)
    requires Other(text)
    ensures LineText(text)
  {
  }

  lemma TailOther(lines: seq<Line>)
    requires AllOther(lines) && lines != []
    ensures Other(lines[0].text) && AllOther(lines[1..])
  {
    hide Other;
  }

  lemma EmptyTaken(width: nat, h: Headers)
    requires h.contentLength.None? && !h.sawOther && h.sectionBytes + width <= 65536
    ensures TakeLine([], width, h) == More(h.(sectionBytes := h.sectionBytes + width))
  {
    assert !IsRawLine([]);
  }

  lemma {:induction false} EmptySkipped(lines: seq<Line>, rest: seq<byte>, h: Headers)
    requires AllEmpty(lines) && h.contentLength.None? && !h.sawOther && h.sectionBytes + |Render(lines)| <= 65536
    ensures ParseFrom(Render(lines) + rest, h) == ParseFrom(rest, After(h, false, |Render(lines)|))
    decreases |lines|
  {
    hide Render, ParseFrom, AllEmpty, End;
    if lines == [] {
      NoLines(rest, h);
    } else {
      var l, tail := lines[0], lines[1..];
      RenderHead(lines, rest);
      TailEmpty(lines);
      EmptyLineSkipped(l.crlf, Render(tail) + rest, h);
      EmptySkipped(tail, rest, After(h, false, |End(l.crlf)|));
      hide After;
      AfterTwice(h, false, |End(l.crlf)|, false, |Render(tail)|);
    }
  }

  lemma TailEmpty(lines: seq<Line>)
    requires AllEmpty(lines) && lines != []
    ensures lines[0].text == [] && AllEmpty(lines[1..])
  {
  }

  lemma EmptyLineSkipped(crlf: bool, rest: seq<byte>, h: Headers)
    requires h.contentLength.None? && !h.sawOther && h.sectionBytes + |End(crlf)| <= 65536
    ensures ParseFrom([] + End(crlf) + rest, h) == ParseFrom(rest, After(h, false, |End(crlf)|))
  {
    hide ParseFrom, TakeLine, End;
    EndIsShort(crlf);
    LineTaken([], crlf, rest, h);
    EmptyTaken(|End(crlf)|, h);
  }

  // --- The line that announces a length -------------------------------------

  /** White space around the name and around the number, and the number as it may be written. */
  datatype Announcement = Announcement(
    before: seq<byte>, name: seq<byte>, after: seq<byte>, gap: seq<byte>, plus: bool, zeros: nat, len: nat,
      tail: seq<byte>)

  /** White space within a line. */
  ghost predicate Gap(b: seq<byte>) { Blank(b) && 10 !in b && 13 !in b }

  ghost predicate WellFormed(a: Announcement) {
    && Gap(a.before) && Gap(a.after) && Gap(a.gap) && Gap(a.tail) && Spelled(a.name)
    && a.len <= 0xFFFF_FFFF_FFFF_FFFF
  }

  function NamePart(a: Announcement): seq<byte> { a.before + a.name + a.after }

  function ValuePart(a: Announcement): seq<byte> { a.gap + Written(a.plus, a.zeros, a.len) + a.tail }

  function TextOf(a: Announcement): seq<byte> { NamePart(a) + [58] + ValuePart(a) }

  lemma NameFits(a: Announcement)
    requires WellFormed(a)
    ensures 58 !in NamePart(a) && 10 !in NamePart(a) && NamesContentLength(NamePart(a)) && Valid(NamePart(a))
    ensures NamePart(a) != [] && TrimStart(NamePart(a)) != [] && Visible(TrimStart(NamePart(a))[0])
    ensures TrimStart(NamePart(a))[0] != 123 && TrimStart(NamePart(a))[0] != 91
  {
    hide Blank, Valid, Written;
    var text := NamePart(a);
    var i, j := |a.before|, |a.before| + |a.name|;
    assert text[..i] == a.before && text[i..j] == a.name && text[j..] == a.after;
    assert NameWithin(text, i, j);
    NameExactly(text);
    SpelledIsVisible(a.name);
    BlankIsValid(a.before);
    BlankIsValid(a.after);
    PartsValid(a.before, a.name, a.after);
    assert text == a.before + (a.name + a.after);
    TrimStartSkips(a.before, a.name + a.after);
    assert SameLetter(a.name[0], "content-length"[0]);
    NothingToTrim(a.name + a.after);
    forall k | 0 <= k < |a.name|
      ensures a.name[k] != 10
    {
      assert SameLetter(a.name[k], "content-length"[k]);
    }
  }

  lemma ValueFits(a: Announcement)
    requires WellFormed(a)
    ensures 10 !in ValuePart(a) && ValuePart(a) != [] && ValuePart(a)[|ValuePart(a)| - 1] != 13 && Valid(ValuePart(a))
    ensures ParseLength(ValuePart(a)) == if a.len > 10485760 then Err(ContentLengthTooLarge) else Ok(a.len)
  {
    hide Blank, Valid, Written, Trim, ParseUsize;
    WrittenParses(a.plus, a.zeros, a.len);
    var w := Written(a.plus, a.zeros, a.len);
    assert w != [] by { WrittenIsSomething(a.plus, a.zeros, a.len); }
    TrimBetween(a.gap, w, a.tail);
    var v := ValuePart(a);
    assert v[|v| - 1] == if a.tail == [] then w[|w| - 1] else a.tail[|a.tail| - 1];
  }

  lemma WrittenIsSomething(plus: bool, zeros: nat, v: nat)
    ensures Written(plus, zeros, v) != []
  {
  }

  lemma AnnouncementTaken(a: Announcement, width: nat, h: Headers)
    requires WellFormed(a) && h.sectionBytes + width <= 65536
    ensures LineText(TextOf(a))
    ensures TakeLine(TextOf(a), width, h) ==
            if h.contentLength.Some? then Stop(DuplicateContentLength, true)
            else if a.len > 10485760 then Stop(ContentLengthTooLarge, true)
            else More(Headers(Some(a.len), true, h.sawOther, h.sectionBytes + width))
  {
    hide NamesContentLength, ParseLength, Written, WellFormed, IsRawLine, FindByte;
    var text, c := TextOf(a), |NamePart(a)|;
    NameFits(a);
    ValueFits(a);
    assert text[..c] == NamePart(a) && text[c] == 58 && text[c + 1..] == ValuePart(a);
    FirstColon(text, c);
    assert text[|text| - 1] == ValuePart(a)[|ValuePart(a)| - 1];
    NotRaw(a);
  }

  lemma NotRaw(a: Announcement)
    requires WellFormed(a)
    ensures !IsRawLine(TextOf(a))
  {
    var text, tail := TextOf(a), [58] + ValuePart(a);
    NameFits(a);
    ValueFits(a);
    hide Valid, ValuePart, NamePart, TrimStart, Blank;
    assert text == NamePart(a) + tail;
    ColonValid(ValuePart(a));
    ValidConcat(NamePart(a), tail);
    TrimOfLonger(NamePart(a), tail);
  }

  lemma ColonValid(v: seq<byte>)
    requires Valid(v)
    ensures Valid([58] + v)
  {
    assert ([58] + v)[1..] == v;
  }

  /** Text behind a visible character does not change what is trimmed before it. */
  lemma TrimOfLonger(a: seq<byte>, b: seq<byte>)
    requires TrimStart(a) != [] && Visible(TrimStart(a)[0])
    ensures TrimStart(a + b) == TrimStart(a) + b
  {
    hide Blank, TrimStart;
    var k := TrimStartLeaves(a);
    assert a + b == a[..k] + (a[k..] + b);
    TrimStartSkips(a[..k], a[k..] + b);
    NothingToTrim(a[k..] + b);
  }

  // --- The laws -------------------------------------------------------------

  /** A body of the announced length and what follows it. */
  predicate IsBody(o: Outcome, len: nat, rest: seq<byte>) {
    if |rest| < len then o == Fatal(EofInBody, true)
    else if !Valid(rest[..len]) then o == BadBody(rest[len..])
    else o == Message(rest[..len], true, rest[len..])
  }

  /** Empty lines, other lines and the line that announces the length, with their newlines. */
  function Opening(empty: seq<Line>, others: seq<Line>, a: Announcement, crlf: bool): seq<byte> {
    Render(empty) + Render(others) + (TextOf(a) + End(crlf))
  }

  lemma OpeningTaken(empty: seq<Line>, others: seq<Line>, a: Announcement, crlf: bool, rest: seq<byte>)
    requires AllEmpty(empty) && AllOther(others) && WellFormed(a) && |Opening(empty, others, a, crlf)| <= 65536
    ensures Parse(Opening(empty, others, a, crlf) + rest) ==
            if a.len > 10485760 then Fatal(ContentLengthTooLarge, true)
            else ParseFrom(rest, Headers(Some(a.len), true, others != [], |Opening(empty, others, a, crlf)|))
  {
    hide ParseFrom, TakeLine, Render, AllOther, AllEmpty, WellFormed, TextOf, LineText;
    var line := TextOf(a) + End(crlf);
    var n := |Render(empty)|;
    Join4(Render(empty), Render(others), line, rest);
    EmptySkipped(empty, Render(others) + (line + rest), FRESH);
    var h := Headers(None, false, false, n);
    OthersSkipped(others, line + rest, h);
    var g := Headers(None, false, others != [], n + |Render(others)|);
    AnnouncementTaken(a, |TextOf(a)| + |End(crlf)|, g);
    LineTaken(TextOf(a), crlf, rest, g);
  }

  /**
    A header section with one length, in any spelling and among any white space,
    between any other lines, is read as that length, and the body follows.
   */
  lemma HeadersAccepted(empty: seq<Line>, before: seq<Line>, a: Announcement, crlf: bool, after: seq<Line>, last: bool,
                        rest: seq<byte>)
    requires AllEmpty(empty) && AllOther(before) && AllOther(after) && WellFormed(a) && a.len <= 10485760
    requires |Opening(empty, before, a, crlf)| + |Render(after)| + |End(last)| <= 65536
    ensures IsBody(Parse(Opening(empty, before, a, crlf) + (Render(after) + (End(last) + rest))), a.len, rest)
  {
    hide ParseFrom, TakeLine, Render, AllOther, AllEmpty, WellFormed, Opening, Parse;
    var n := |Opening(empty, before, a, crlf)|;
    OpeningTaken(empty, before, a, crlf, Render(after) + (End(last) + rest));
    var h := Headers(Some(a.len), true, before != [], n);
    OthersSkipped(after, End(last) + rest, h);
    var g := Headers(Some(a.len), true, before != [] || after != [], n + |Render(after)|);
    LineTaken([], last, rest, g);
    assert [] + End(last) + rest == End(last) + rest;
    LastTaken(a.len, |End(last)|, g);
  }

  lemma LastTaken(len: nat, width: nat, h: Headers)
    requires h.contentLength == Some(len) && h.sawHeaders && h.sectionBytes + width <= 65536
    ensures TakeLine([], width, h) == Body(len)
  {
  }

  /** A length above ten mebibytes is refused, whatever follows. */
  lemma TooLargeRefused(empty: seq<Line>, before: seq<Line>, a: Announcement, crlf: bool, rest: seq<byte>)
    requires AllEmpty(empty) && AllOther(before) && WellFormed(a) && a.len > 10485760
    requires |Opening(empty, before, a, crlf)| <= 65536
    ensures Parse(Opening(empty, before, a, crlf) + rest) == Fatal(ContentLengthTooLarge, true)
  {
    hide *;
    OpeningTaken(empty, before, a, crlf, rest);
  }

  /** A second length is refused, even the same one. */
  lemma SecondLengthRefused(empty: seq<Line>, before: seq<Line>, a: Announcement, crlf: bool, between: seq<Line>,
                            second: Announcement, end: bool, rest: seq<byte>)
    requires AllEmpty(empty) && AllOther(before) && AllOther(between) && WellFormed(a) && WellFormed(second)
    requires a.len <= 10485760
    requires |Opening(empty, before, a, crlf)| + |Render(between)| + |TextOf(second)| + |End(end)| <= 65536
    ensures Parse(Opening(empty, before, a, crlf) + (Render(between) + (TextOf(second) + End(end) + rest))) ==
            Fatal(DuplicateContentLength, true)
  {
    hide ParseFrom, TakeLine, Render, AllOther, AllEmpty, WellFormed, Opening, Parse, TextOf, LineText;
    var n := |Opening(empty, before, a, crlf)|;
    OpeningTaken(empty, before, a, crlf, Render(between) + (TextOf(second) + End(end) + rest));
    var h := Headers(Some(a.len), true, before != [], n);
    OthersSkipped(between, TextOf(second) + End(end) + rest, h);
    var g := Headers(Some(a.len), true, before != [] || between != [], n + |Render(between)|);
    AnnouncementTaken(second, |TextOf(second)| + |End(end)|, g);
    LineTaken(TextOf(second), end, rest, g);
  }

  /** Headers without a length are refused. */
  lemma NoLengthRefused(empty: seq<Line>, others: seq<Line>, last: bool, rest: seq<byte>)
    requires AllEmpty(empty) && AllOther(others) && others != []
    requires |Render(empty)| + |Render(others)| + |End(last)| <= 65536
    ensures Parse(Render(empty) + (Render(others) + (End(last) + rest))) == Fatal(MissingContentLength, true)
  {
    hide ParseFrom, TakeLine, Render, AllOther, AllEmpty;
    var n := |Render(empty)|;
    EmptySkipped(empty, Render(others) + (End(last) + rest), FRESH);
    var h := Headers(None, false, false, n);
    OthersSkipped(others, End(last) + rest, h);
    var g := Headers(None, false, true, n + |Render(others)|);
    LineTaken([], last, rest, g);
    assert [] + End(last) + rest == End(last) + rest;
    BlankEnds(|End(last)|, g);
  }

  lemma BlankEnds(width: nat, h: Headers)
    requires h.contentLength.None? && h.sawOther && h.sectionBytes + width <= 65536
    ensures TakeLine([], width, h) == Stop(MissingContentLength, true)
  {
  }

  /** A line that begins as JSON is a message by itself, after any empty lines; one that is not UTF-8 is mended. */
  lemma JsonLineAccepted(empty: seq<Line>, text: seq<byte>, crlf: bool, rest: seq<byte>)
    requires AllEmpty(empty) && |Render(empty)| <= 65536
    requires LineText(text) && BeginsJson(text) && |text| + 2 <= 10485760
    ensures Parse(Render(empty) + (text + End(crlf) + rest)) ==
            Message(if Valid(text) then text else Lossy(text), false, rest)
  {
    hide ParseFrom, Render, AllEmpty, Valid, Lossy, BeginsJson, LineText;
    EmptySkipped(empty, text + End(crlf) + rest, FRESH);
    var h := Headers(None, false, false, |Render(empty)|);
    RawLineExactly(text);
    LineTaken(text, crlf, rest, h);
  }

  /** A line longer than ten mebibytes with its newline is refused unread. */
  lemma LongLineRefused(b: seq<byte>)
    ensures |b| > 10485760 && 10 !in b[..10485760] ==> Parse(b) == Fatal(LineTooLong, false)
  {
    if |b| > 10485760 && 10 !in b[..10485760] {
      var a, rest := b[..10485760], b[10485760..];
      assert b == a + rest && rest != [];
      hide LineOf;
      LineAfter(a, rest);
      LineOfSomething(rest);
    }
  }

  lemma LineOfSomething(b: seq<byte>)
    requires b != []
    ensures LineOf(b) != []
  {
  }

  // --- What is written ------------------------------------------------------

  predicate Spells(b: seq<byte>, s: string) { |b| == |s| && forall k :: 0 <= k < |s| ==> b[k] as int == s[k] as int }

  lemma PrefixText()
    ensures Spells(CONTENT_LENGTH_PREFIX, "Content-Length: ")
  {
  }

  /** A framed message on the wire. */
  lemma WireForm(payload: seq<byte>)
    requires payload != [] && payload[|payload| - 1] != 10
    ensures Spells(CONTENT_LENGTH_PREFIX, "Content-Length: ")
    ensures Frame(payload, false) ==
            CONTENT_LENGTH_PREFIX + Decimal(|payload| + 1) + [13, 10, 13, 10] + (payload + [10])
    ensures Frame(payload, true) == payload + [10]
  {
    hide Decimal, Spells, HeaderBytes, EndedByNewline;
    PrefixText();
    EndedForm(payload);
    HeaderForm(|payload| + 1);
    NothingBefore(payload + [10]);
  }

  lemma NothingBefore(b: seq<byte>)
    ensures [] + b == b
  {
  }

  lemma EndedForm(payload: seq<byte>)
    requires payload != [] && payload[|payload| - 1] != 10
    ensures EndedByNewline(payload) == payload + [10] && |payload + [10]| == |payload| + 1
  {
  }

  lemma HeaderForm(len: nat)
    ensures HeaderBytes(len) == CONTENT_LENGTH_PREFIX + Decimal(len) + [13, 10, 13, 10]
  {
    hide Decimal;
  }
}
