/**
  Cutting a file without syntax into overlapping windows of lines, and joining the
  lines of a window into trimmed text without building the untrimmed join first.
 */
module Chunking {
  import opened Wrappers
  import opened Sequences

  const FALLBACK_CHUNK_LINES := 100
  const FALLBACK_OVERLAP_LINES := 15
  const STRIDE := FALLBACK_CHUNK_LINES - FALLBACK_OVERLAP_LINES

  // --- Trimming -------------------------------------------------------------

  /** The characters of the Unicode property White_Space. */
  predicate IsSpace(c: char)
    ensures c < 128 as char ==> (IsSpace(c) <==> c in "\t\n\U{0B}\U{0C}\r ")
  {
    var x := c as int;
    || 0x09 <= x <= 0x0D || x == 0x20 || x == 0x85 || x == 0xA0 || x == 0x1680
    || 0x2000 <= x <= 0x200A || x == 0x2028 || x == 0x2029 || x == 0x202F || x == 0x205F || x == 0x3000
  }

  predicate Blank(s: string) { s == [] || (IsSpace(s[0]) && Blank(s[1..])) }

  function TrimStart(s: string): string {
    if s == [] || !IsSpace(s[0]) then s else TrimStart(s[1..])
  }

  function TrimEnd(s: string): string {
    if s == [] || !IsSpace(s[|s| - 1]) then s else TrimEnd(s[..|s| - 1])
  }

  function Trim(s: string): string { TrimEnd(TrimStart(s)) }

  lemma {:induction false} BlankConcat(a: string, b: string)
    ensures Blank(a + b) <==> Blank(a) && Blank(b)
  {
    if a == [] {
      assert a + b == b;
    } else {
      assert (a + b)[1..] == a[1..] + b && (a + b)[0] == a[0];
      BlankConcat(a[1..], b);
    }
  }

  lemma {:induction false} TrimStartConcat(a: string, b: string)
    ensures TrimStart(a + b) == if Blank(a) then TrimStart(b) else TrimStart(a) + b
  {
    if a == [] {
      assert a + b == b;
    } else {
      assert (a + b)[1..] == a[1..] + b && (a + b)[0] == a[0];
      TrimStartConcat(a[1..], b);
    }
  }

  lemma {:induction false} BlankLast(s: string)
    requires s != []
    ensures Blank(s) <==> Blank(s[..|s| - 1]) && IsSpace(s[|s| - 1])
  {
    assert s == s[..|s| - 1] + [s[|s| - 1]];
    BlankConcat(s[..|s| - 1], [s[|s| - 1]]);
    assert [s[|s| - 1]][1..] == [];
  }

  lemma {:induction false} TrimEndConcat(a: string, b: string)
    ensures TrimEnd(a + b) == if Blank(b) then TrimEnd(a) else a + TrimEnd(b)
  {
    if b == [] {
      assert a + b == a;
    } else {
      assert (a + b)[..|a + b| - 1] == a + b[..|b| - 1] && (a + b)[|a + b| - 1] == b[|b| - 1];
      BlankLast(b);
      TrimEndConcat(a, b[..|b| - 1]);
    }
  }

  lemma {:induction false} TrimBlank(s: string)
    ensures Blank(s) <==> TrimStart(s) == []
    ensures Blank(s) <==> Trim(s) == []
  {
    if s != [] {
      if IsSpace(s[0]) {
        TrimBlank(s[1..]);
      } else {
        TrimEndConcat([], s);
        assert [] + s == s;
        assert TrimEnd(s) != [] by { TrimEndKeeps(s); }
      }
    }
  }

  lemma {:induction false} TrimEndKeeps(s: string)
    requires s != [] && !IsSpace(s[0])
    ensures TrimEnd(s) != []
  {
    if |s| > 1 && IsSpace(s[|s| - 1]) { TrimEndKeeps(s[..|s| - 1]); }
  }

  lemma TrimBefore(a: string, s: string)
    requires Blank(a)
    ensures Trim(a + s) == Trim(s)
  {
    TrimStartConcat(a, s);
  }

  lemma TrimAfter(s: string, b: string)
    requires Blank(b)
    ensures Trim(s + b) == Trim(s)
  {
    TrimStartConcat(s, b);
    if Blank(s) {
      TrimBlank(b);
      TrimBlank(s);
    } else {
      TrimEndConcat(TrimStart(s), b);
    }
  }

  // --- Joining lines --------------------------------------------------------

  function Join(lines: seq<string>): string {
    if lines == [] then ""
    else if |lines| == 1 then lines[0]
    else Join(lines[..|lines| - 1]) + "\n" + lines[|lines| - 1]
  }

  predicate AllBlank(lines: seq<string>) { forall k :: 0 <= k < |lines| ==> Blank(lines[k]) }

  lemma LineFeedBlank()
    ensures Blank("\n")
  {
    assert "\n"[1..] == [];
  }

  lemma {:induction false} JoinBlank(lines: seq<string>)
    ensures Blank(Join(lines)) <==> AllBlank(lines)
  {
    if |lines| > 1 {
      var front, last := lines[..|lines| - 1], lines[|lines| - 1];
      JoinBlank(front);
      LineFeedBlank();
      BlankConcat(Join(front) + "\n", last);
      BlankConcat(Join(front), "\n");
      assert AllBlank(lines) <==> AllBlank(front) && Blank(last);
    }
  }

  lemma {:induction false} JoinConcat(a: seq<string>, b: seq<string>)
    requires a != [] && b != []
    ensures Join(a + b) == Join(a) + "\n" + Join(b)
  {
    if |b| == 1 {
      assert (a + b)[..|a + b| - 1] == a;
    } else {
      var front, last := b[..|b| - 1], b[|b| - 1];
      assert (a + b)[..|a + b| - 1] == a + front && (a + b)[|a + b| - 1] == last;
      JoinConcat(a, front);
      hide Join;
      Regroup(Join(a) + "\n", Join(front), "\n", last);
    }
  }

  lemma DropBefore(pre: seq<string>, tail: seq<string>)
    requires AllBlank(pre) && tail != []
    ensures Trim(Join(pre + tail)) == Trim(Join(tail))
  {
    hide Trim, Join, Blank;
    if pre == [] {
      assert pre + tail == tail;
    } else {
      JoinBlank(pre);
      LineFeedBlank();
      BlankConcat(Join(pre), "\n");
      JoinConcat(pre, tail);
      TrimBefore(Join(pre) + "\n", Join(tail));
    }
  }

  lemma DropAfter(selected: seq<string>, post: seq<string>)
    requires selected != [] && AllBlank(post)
    ensures Trim(Join(selected + post)) == Trim(Join(selected))
  {
    hide Trim, Join, Blank;
    if post == [] {
      assert selected + post == selected;
    } else {
      JoinBlank(post);
      LineFeedBlank();
      BlankConcat("\n", Join(post));
      JoinConcat(selected, post);
      assert Join(selected) + "\n" + Join(post) == Join(selected) + ("\n" + Join(post));
      TrimAfter(Join(selected), "\n" + Join(post));
    }
  }

  /** Blank lines before and after do not show in the trimmed join. */
  lemma DropBlankLines(lines: seq<string>, first: nat, last: nat)
    requires first <= last < |lines|
    requires AllBlank(lines[..first]) && AllBlank(lines[last + 1..])
    ensures Trim(Join(lines)) == Trim(Join(lines[first..last + 1]))
  {
    hide Trim, Join, AllBlank;
    var pre, selected, post := lines[..first], lines[first..last + 1], lines[last + 1..];
    DropAfter(selected, post);
    DropBefore(pre, selected + post);
    assert lines == pre + (selected + post);
  }

  /** The text of a window: the join of its lines, trimmed; nothing when every line is blank. */
  function Content(lines: seq<string>): Option<string> {
    if AllBlank(lines) then None else Some(Trim(Join(lines)))
  }

  /** Joins and hashes line by line, trimming only the first and the last line that is not blank. */
  method JoinLinesTrimmedAndHash(lines: seq<string>) returns (r: Option<(string, Digest<string>)>)
    ensures r.None? <==> Content(lines).None?
    ensures r.Some? ==> r.value.0 == Content(lines).value && r.value.1 == Sha256(r.value.0)
    ensures r.Some? ==> r.value.0 != ""
  {
    var first: Option<nat>, last: Option<nat> := None, None;
    for index := 0 to |lines|
      invariant first.None? <==> last.None?
      invariant first.None? ==> forall k :: 0 <= k < index ==> Blank(lines[k])
      invariant first.Some? ==>
        first.value <= last.value < index && !Blank(lines[first.value]) && !Blank(lines[last.value])
      invariant first.Some? ==> forall k :: 0 <= k < first.value ==> Blank(lines[k])
      invariant last.Some? ==> forall k :: last.value < k < index ==> Blank(lines[k])
    {
      TrimBlank(lines[index]);
      if Trim(lines[index]) != "" {
        if first.None? { first := Some(index); }
        last := Some(index);
      }
    }
    if first.None? { return None; }
    assert !AllBlank(lines);
    var selected := lines[first.value..last.value + 1];
    DropBlankLines(lines, first.value, last.value);
    var content := JoinSelected(selected);
    JoinBlank(lines);
    TrimBlank(Join(lines));
    r := Some((content, Sha256(content)));
  }

  /** The trimmed join of lines of which the first and the last are not blank. */
  method JoinSelected(selected: seq<string>) returns (content: string)
    requires selected != [] && !Blank(selected[0]) && !Blank(selected[|selected| - 1])
    ensures content == Trim(Join(selected))
  {
    hide Trim, TrimStart, TrimEnd, Blank, Join;
    var lastLine := |selected| - 1;
    content := "";
    for index := 0 to |selected|
      invariant index == 0 ==> content == ""
      invariant 0 < index <= lastLine ==> content == TrimStart(Join(selected[..index]))
      invariant index == |selected| ==> content == Trim(Join(selected))
    {
      JoinStep(selected, index);
      if index > 0 { content := content + "\n"; }
      var trimmed :=
        if index == 0 && index == lastLine then Trim(selected[index])
        else if index == 0 then TrimStart(selected[index])
        else if index == lastLine then TrimEnd(selected[index])
        else selected[index];
      content := content + trimmed;
    }
  }

  lemma JoinStep(selected: seq<string>, index: nat)
    requires index < |selected| && !Blank(selected[0])
    ensures index == 0 ==> Join(selected[..1]) == selected[0]
    ensures index > 0 ==>
      TrimStart(Join(selected[..index + 1])) == TrimStart(Join(selected[..index])) + "\n" + selected[index]
    ensures index == |selected| - 1 ==> selected[..index + 1] == selected
    ensures index > 0 && index == |selected| - 1 && !Blank(selected[index]) ==>
      Trim(Join(selected)) == TrimStart(Join(selected[..index])) + "\n" + TrimEnd(selected[index])
    ensures index == 0 && |selected| == 1 ==> Trim(Join(selected)) == Trim(selected[0])
  {
    hide TrimStart, TrimEnd, Blank;
    if index > 0 {
      var front := selected[..index];
      HeadNotBlank(front);
      JoinSnoc(selected, index);
      hide Join;
      NextLine(Join(front), selected[index]);
      if !Blank(selected[index]) { LastLine(TrimStart(Join(front)), selected[index]); }
    }
  }

  lemma HeadNotBlank(lines: seq<string>)
    requires lines != [] && !Blank(lines[0])
    ensures !Blank(Join(lines))
  {
    JoinBlank(lines);
  }

  lemma NextLine(head: string, line: string)
    requires !Blank(head)
    ensures TrimStart(head + "\n" + line) == TrimStart(head) + "\n" + line
  {
    hide TrimStart, Blank;
    assert head + "\n" + line == head + ("\n" + line);
    TrimStartConcat(head, "\n" + line);
    assert TrimStart(head) + "\n" + line == TrimStart(head) + ("\n" + line);
  }

  lemma LastLine(head: string, line: string)
    requires !Blank(line)
    ensures TrimEnd(head + "\n" + line) == head + "\n" + TrimEnd(line)
  {
    TrimEndConcat(head + "\n", line);
  }

  lemma JoinSnoc(selected: seq<string>, index: nat)
    requires 0 < index < |selected|
    ensures Join(selected[..index + 1]) == Join(selected[..index]) + "\n" + selected[index]
  {
    assert selected[..index + 1][..index] == selected[..index];
  }

  // --- Windows --------------------------------------------------------------

  datatype Chunk = Chunk(startLine: nat, endLine: nat, content: string, contentHash: Digest<string>)

  function CeilDiv(a: nat, b: nat): nat
    requires b > 0
  {
    (a + b - 1) / b
  }

  /** The capacity the program reserves. */
  function WindowCount(n: nat): nat {
    if n == 0 then 0
    else if n <= FALLBACK_CHUNK_LINES then 1
    else 1 + CeilDiv(n - FALLBACK_CHUNK_LINES, STRIDE)
  }

  function WindowStart(k: nat): nat { STRIDE * k }

  function WindowEnd(n: nat, k: nat): nat {
    if STRIDE * k + FALLBACK_CHUNK_LINES < n then STRIDE * k + FALLBACK_CHUNK_LINES else n
  }

  /**
    The windows of a file: the first starts with it and each inside it, all but the last hold a
    hundred lines, two neighbours share fifteen, and only the last reaches the end.
   */
  lemma WindowsTile(n: nat, k: nat)
    requires k < WindowCount(n)
    ensures WindowStart(k) < WindowEnd(n, k) <= n
    ensures WindowEnd(n, k) == n <==> k == WindowCount(n) - 1
    ensures k == 0 ==> WindowStart(k) == 0
    ensures WindowEnd(n, k) <= WindowStart(k) + 100
    ensures k + 1 < WindowCount(n) ==>
      WindowEnd(n, k) == WindowStart(k) + 100 && WindowEnd(n, k) - WindowStart(k + 1) == 15
  {
  }

  /** Every line lies in a window. */
  lemma WindowOfLine(n: nat, i: nat) returns (k: nat)
    requires i < n
    ensures k < WindowCount(n) && WindowStart(k) <= i < WindowEnd(n, k)
  {
    k := if i / STRIDE < WindowCount(n) then i / STRIDE else WindowCount(n) - 1;
  }

  /** The chunks of the first `k` windows. */
  function ChunksUpTo(lines: seq<string>, k: nat): seq<Chunk>
    requires k <= WindowCount(|lines|)
  {
    if k == 0 then []
    else
      WindowsTile(|lines|, k - 1);
      var start, end := WindowStart(k - 1), WindowEnd(|lines|, k - 1);
      var content := Content(lines[start..end]);
      ChunksUpTo(lines, k - 1)
      + if content.Some? then [Chunk(start + 1, end, content.value, Sha256(content.value))] else []
  }

  method FallbackLineChunks(lines: seq<string>) returns (chunks: seq<Chunk>, capacity: nat)
    ensures chunks == ChunksUpTo(lines, WindowCount(|lines|))
    ensures capacity == WindowCount(|lines|) && |chunks| <= capacity
  {
    hide Content;
    if lines == [] { return [], 0; }
    var stride := FALLBACK_CHUNK_LINES - FALLBACK_OVERLAP_LINES;
    capacity := if |lines| <= FALLBACK_CHUNK_LINES then 1 else 1 + CeilDiv(|lines| - FALLBACK_CHUNK_LINES, stride);
    chunks := [];
    var start := 0;
    ghost var k := 0;
    while start < |lines|
      invariant k < WindowCount(|lines|) && start == WindowStart(k)
      invariant chunks == ChunksUpTo(lines, k) && |chunks| <= k
      decreases |lines| - start
    {
      WindowsTile(|lines|, k);
      var end := if start + FALLBACK_CHUNK_LINES < |lines| then start + FALLBACK_CHUNK_LINES else |lines|;
      var joined := JoinLinesTrimmedAndHash(lines[start..end]);
      if joined.Some? {
        chunks := chunks + [Chunk(start + 1, end, joined.value.0, joined.value.1)];
      }
      k := k + 1;
      if end == |lines| { break; }
      start := if end < FALLBACK_OVERLAP_LINES then 0 else end - FALLBACK_OVERLAP_LINES;
    }
  }

  lemma {:induction false} ChunkOfWindow(lines: seq<string>, k: nat, m: nat)
    requires k < m <= WindowCount(|lines|)
    requires WindowStart(k) < WindowEnd(|lines|, k) <= |lines|
    requires !AllBlank(lines[WindowStart(k)..WindowEnd(|lines|, k)])
    ensures exists c ::
      && c in ChunksUpTo(lines, m) && c.startLine == WindowStart(k) + 1
      && c.endLine == WindowEnd(|lines|, k)
      && c.content == Trim(Join(lines[WindowStart(k)..WindowEnd(|lines|, k)]))
  {
    hide Trim, Join;
    var start, end := WindowStart(k), WindowEnd(|lines|, k);
    if k < m - 1 {
      ChunkOfWindow(lines, k, m - 1);
      var c :| c in ChunksUpTo(lines, m - 1) && c.startLine == start + 1 && c.endLine == end
        && c.content == Trim(Join(lines[start..end]));
      assert c in ChunksUpTo(lines, m);
    } else {
      var content := Trim(Join(lines[start..end]));
      assert Chunk(start + 1, end, content, Sha256(content)) in ChunksUpTo(lines, m);
    }
  }

  /** Every line that is not blank is within a chunk, which holds the trimmed join of its window. */
  lemma EveryLineIsIndexed(lines: seq<string>, i: nat)
    requires i < |lines| && !Blank(lines[i])
    ensures exists c ::
      && c in ChunksUpTo(lines, WindowCount(|lines|))
      && 1 <= c.startLine <= i + 1 <= c.endLine <= |lines|
      && c.content == Trim(Join(lines[c.startLine - 1..c.endLine]))
  {
    hide Trim, Join, Blank, ChunksUpTo, WindowCount;
    var n := |lines|;
    var k := WindowOfLine(n, i);
    WindowsTile(n, k);
    var start, end := WindowStart(k), WindowEnd(n, k);
    hide WindowStart, WindowEnd;
    assert lines[start..end][i - start] == lines[i];
    ChunkOfWindow(lines, k, WindowCount(n));
    var c :| c in ChunksUpTo(lines, WindowCount(n)) && c.startLine == start + 1 && c.endLine == end
      && c.content == Trim(Join(lines[start..end]));
    assert c.startLine - 1 == start;
  }

  /** Every chunk is that of a window with content: its lines counted from one, their trimmed join and its hash. */
  lemma {:induction false} ChunkHasWindow(lines: seq<string>, m: nat, c: Chunk) returns (k: nat)
    requires m <= WindowCount(|lines|) && c in ChunksUpTo(lines, m)
    ensures k < m && c.startLine == 85 * k + 1 <= c.endLine <= |lines|
    ensures c.endLine == if 85 * k + 100 < |lines| then 85 * k + 100 else |lines|
    ensures !AllBlank(lines[c.startLine - 1..c.endLine])
    ensures c.content == Trim(Join(lines[c.startLine - 1..c.endLine])) && c.contentHash == Sha256(c.content)
  {
    hide Trim, Join, AllBlank, WindowCount;
    WindowsTile(|lines|, m - 1);
    if c in ChunksUpTo(lines, m - 1) { k := ChunkHasWindow(lines, m - 1, c); } else { k := m - 1; }
  }

  /** The chunks come in the order of their lines, and no window gives two. */
  lemma {:induction false} ChunksAscend(lines: seq<string>, m: nat, i: nat, j: nat)
    requires m <= WindowCount(|lines|) && i < j < |ChunksUpTo(lines, m)|
    ensures ChunksUpTo(lines, m)[i].startLine < ChunksUpTo(lines, m)[j].startLine
  {
    hide Content, WindowCount, WindowEnd;
    var before := ChunksUpTo(lines, m - 1);
    if j < |before| {
      ChunksAscend(lines, m - 1, i, j);
    } else {
      var k := ChunkHasWindow(lines, m - 1, before[i]);
    }
  }
}
