/** The rewriting itself: finding the first group to expand, expanding it, and repeating. */
module BraceRewriting {
  import opened Wrappers
  import opened Languages
  import opened BraceSyntax
  import opened BraceExpansion

  /** The parts between the commas; always at least one. */
  function Split(w: string): (parts: seq<string>)
    ensures parts != []
  {
    if w == [] then [""]
    else
      var before, c := Split(w[..|w| - 1]), w[|w| - 1];
      if c == ',' then before + [""] else before[|before| - 1 := before[|before| - 1] + [c]]
  }

  /** The first closing brace whose group holds a comma, with the brace that opens it. */
  function FirstGroup(s: string, i: nat, opens: seq<nat>): Option<(nat, nat)>
    requires i <= |s| && forall k :: 0 <= k < |opens| ==> opens[k] < i
    decreases |s| - i
  {
    if i == |s| then None
    else if s[i] == '{' then FirstGroup(s, i + 1, opens + [i])
    else if s[i] == '}' && opens != [] then
      var start := opens[|opens| - 1];
      if |Split(s[start + 1..i])| > 1 then Some((start, i)) else FirstGroup(s, i + 1, opens[..|opens| - 1])
    else FirstGroup(s, i + 1, opens)
  }

  datatype GlobError = TooManyAlternatives | TooManyPatterns

  function Rejoined(prefix: string, parts: seq<string>, suffix: string): seq<string> {
    seq(|parts|, k requires 0 <= k < |parts| => prefix + parts[k] + suffix)
  }

  lemma {:induction false} GroupInside(s: string, i: nat, opens: seq<nat>)
    requires i <= |s| && forall k :: 0 <= k < |opens| ==> opens[k] < i
    ensures FirstGroup(s, i, opens).Some? ==>
      var (start, end) := FirstGroup(s, i, opens).value;
      start < end < |s| && s[end] == '}' && |Split(s[start + 1..end])| > 1
    decreases |s| - i
  {
    hide Split;
    if i < |s| {
      if s[i] == '{' {
        GroupInside(s, i + 1, opens + [i]);
      } else if s[i] == '}' && opens != [] {
        if |Split(s[opens[|opens| - 1] + 1..i])| <= 1 { GroupInside(s, i + 1, opens[..|opens| - 1]); }
      } else {
        GroupInside(s, i + 1, opens);
      }
    }
  }

  function ExpandOne(s: string): Result<Option<seq<string>>, GlobError> {
    GroupInside(s, 0, []);
    match FirstGroup(s, 0, [])
    case None => Ok(None)
    case Some((start, end)) =>
      var parts := Split(s[start + 1..end]);
      if |parts| > MAX_BRACE_ALTERNATIVES then Err(TooManyAlternatives)
      else Ok(Some(Rejoined(s[..start], parts, s[end + 1..])))
  }

  /** Expands the first group that closes and holds a comma; `None` when there is none. */
  method ExpandSingleBrace(pattern: string) returns (r: Result<Option<seq<string>>, GlobError>)
    ensures r == ExpandOne(pattern)
    ensures r.Ok? && r.value.Some? ==> 2 <= |r.value.value| <= 64
  {
    hide Split;
    var braceStack: seq<nat> := [];
    for i := 0 to |pattern|
      invariant forall k :: 0 <= k < |braceStack| ==> braceStack[k] < i
      invariant FirstGroup(pattern, i, braceStack) == FirstGroup(pattern, 0, [])
    {
      if pattern[i] == '{' {
        braceStack := braceStack + [i];
      } else if pattern[i] == '}' && braceStack != [] {
        var start := braceStack[|braceStack| - 1];
        var parts := Split(pattern[start + 1..i]);
        if |parts| > 1 {
          if |parts| > MAX_BRACE_ALTERNATIVES { return Err(TooManyAlternatives); }
          return Ok(Some(Rejoined(pattern[..start], parts, pattern[i + 1..])));
        }
        braceStack := braceStack[..|braceStack| - 1];
      }
    }
    r := Ok(None);
  }

  // --- What has been read when a group is found -----------------------------

  /** Wherever it is read, `w` adds these items and nothing else. */
  ghost predicate ReadsAs(w: string, items: seq<Item>) {
    forall stack: seq<Frame> :: stack != [] ==> Read(stack, w) == Append(stack, items)
  }

  /** No choice anywhere. */
  predicate Inert(items: seq<Item>)
    decreases items
  {
    items == [] ||
    (&& Inert(items[..|items| - 1])
     && match items[|items| - 1]
        case Ch(_) => true
        case Group(alternatives) => |alternatives| == 1 && Inert(alternatives[0].items))
  }

  lemma {:induction false} InertConcat(a: seq<Item>, b: seq<Item>)
    requires Inert(a) && Inert(b)
    ensures Inert(a + b)
  {
    if b == [] {
      assert a + b == a;
    } else {
      assert (a + b)[..|a + b| - 1] == a + b[..|b| - 1];
      InertConcat(a, b[..|b| - 1]);
    }
  }

  lemma InertOne(item: Item)
    requires item.Ch? || (|item.alternatives| == 1 && Inert(item.alternatives[0].items))
    ensures Inert([item])
  {
    assert [item][..0] == [];
  }

  /** A pattern without choices means itself. */
  lemma {:induction false} InertMeaning(items: seq<Item>)
    requires Inert(items)
    ensures Meaning(items) == {Text(items)}
    decreases items
  {
    hide Then;
    if items != [] {
      var front, last := items[..|items| - 1], items[|items| - 1];
      InertMeaning(front);
      if last.Group? {
        var inner := last.alternatives[0].items;
        InertMeaning(inner);
        ThenSingle("{", Text(inner));
        ThenSingle("{" + Text(inner), "}");
        assert ListText(last.alternatives) == Text(inner);
        assert ItemMeaning(last) == {ItemText(last)};
      }
      ThenSingle(Text(front), ItemText(last));
    }
  }

  lemma {:induction false} ReadConcat(stack: seq<Frame>, a: string, b: string)
    requires stack != []
    ensures Read(stack, a + b) == Read(Read(stack, a), b)
  {
    hide Feed;
    if b == [] {
      assert a + b == a;
    } else {
      assert (a + b)[..|a + b| - 1] == a + b[..|b| - 1] && (a + b)[|a + b| - 1] == b[|b| - 1];
      ReadConcat(stack, a, b[..|b| - 1]);
    }
  }

  lemma ReadOne(stack: seq<Frame>, c: char)
    requires stack != []
    ensures Read(stack, [c]) == Feed(stack, c)
  {
    assert [c][..0] == [];
  }

  lemma AppendTwice(stack: seq<Frame>, x: seq<Item>, y: seq<Item>)
    requires stack != []
    ensures Append(Append(stack, x), y) == Append(stack, x + y)
  {
    AppendTop(stack, x);
    assert stack[|stack| - 1].current + x + y == stack[|stack| - 1].current + (x + y);
  }

  lemma ReadsNothing()
    ensures ReadsAs("", [])
  {
    forall stack: seq<Frame> | stack != []
      ensures Read(stack, "") == Append(stack, [])
    {
      assert stack[|stack| - 1].current + [] == stack[|stack| - 1].current;
    }
  }

  lemma ReadsConcat(v: string, x: seq<Item>, w: string, y: seq<Item>)
    requires ReadsAs(v, x) && ReadsAs(w, y)
    ensures ReadsAs(v + w, x + y)
  {
    hide Read, Append;
    forall stack: seq<Frame> | stack != []
      ensures Read(stack, v + w) == Append(stack, x + y)
    {
      ReadConcat(stack, v, w);
      assert Read(stack, v) == Append(stack, x);
      AppendTwice(stack, x, y);
    }
  }

  lemma ReadsChar(c: char)
    requires c != '{' && c != '}' && c != ','
    ensures ReadsAs([c], [Ch(c)])
  {
    hide Append;
    forall stack: seq<Frame> | stack != []
      ensures Read(stack, [c]) == Append(stack, [Ch(c)])
    {
      ReadOne(stack, c);
    }
  }

  lemma ReadsGroup(w: string, items: seq<Item>)
    requires ReadsAs(w, items)
    ensures ReadsAs("{" + w + "}", [Group([Branch(items)])])
  {
    forall stack: seq<Frame> | stack != []
      ensures Read(stack, "{" + w + "}") == Append(stack, [Group([Branch(items)])])
    {
      hide Read, Append;
      ReadConcat(stack, "{" + w, "}");
      ReadConcat(stack, "{", w);
      ReadOne(stack, '{');
      var inner := stack + [EMPTY];
      assert Read(inner, w) == Append(inner, items);
      AppendTop(inner, items);
      assert [] + items == items;
      ReadOne(Append(inner, items), '}');
      assert inner[..|stack|] == stack;
      assert [] + [Branch(items)] == [Branch(items)];
    }
  }

  /** The items of the `j`-th alternative of a frame, finished or not. */
  function PartOf(f: Frame, j: nat): seq<Item>
    requires j <= |f.done|
  {
    if j < |f.done| then f.done[j].items else f.current
  }

  /** An open brace has read exactly `w`, part by part, and no choice in it. */
  ghost predicate FrameReads(f: Frame, w: string) {
    && |Split(w)| == |f.done| + 1
    && forall j :: 0 <= j <= |f.done| ==> ReadsAs(Split(w)[j], PartOf(f, j)) && Inert(PartOf(f, j))
  }

  lemma FreshReads()
    ensures FrameReads(EMPTY, "")
  {
    ReadsNothing();
  }

  lemma FrameReadsMore(f: Frame, w: string, more: string, items: seq<Item>)
    requires FrameReads(f, w) && ReadsAs(more, items) && Inert(items)
    requires Split(w + more) == Split(w)[|Split(w)| - 1 := Split(w)[|Split(w)| - 1] + more]
    ensures FrameReads(Frame(f.done, f.current + items), w + more)
  {
    hide Split, ReadsAs, Inert;
    var g, n := Frame(f.done, f.current + items), |f.done|;
    forall j | 0 <= j <= n
      ensures ReadsAs(Split(w + more)[j], PartOf(g, j)) && Inert(PartOf(g, j))
    {
      assert ReadsAs(Split(w)[j], PartOf(f, j)) && Inert(PartOf(f, j));
      if j == n {
        ReadsConcat(Split(w)[n], f.current, more, items);
        InertConcat(f.current, items);
      }
    }
  }

  lemma FrameReadsComma(f: Frame, w: string)
    requires FrameReads(f, w)
    ensures FrameReads(Frame(f.done + [Branch(f.current)], []), w + ",")
  {
    var g, n := Frame(f.done + [Branch(f.current)], []), |f.done|;
    assert (w + ",")[..|w|] == w;
    ReadsNothing();
    hide ReadsAs, Inert;
    assert Split(w + ",") == Split(w) + [""];
    forall j | 0 <= j <= n + 1
      ensures ReadsAs(Split(w + ",")[j], PartOf(g, j)) && Inert(PartOf(g, j))
    {
      if j <= n {
        assert ReadsAs(Split(w)[j], PartOf(f, j)) && Inert(PartOf(f, j));
      } else {
        assert PartOf(g, j) == [] && Split(w + ",")[j] == "";
        EmptyIsInert();
      }
    }
  }

  lemma EmptyIsInert()
    ensures Inert([])
  {
  }

  lemma {:induction false} SplitPlain(w: string, more: string)
    requires ',' !in more
    ensures Split(w + more) == Split(w)[|Split(w)| - 1 := Split(w)[|Split(w)| - 1] + more]
  {
    var n := |Split(w)| - 1;
    if more == [] {
      assert w + more == w;
      assert Split(w)[n] + more == Split(w)[n];
    } else {
      var front, c := more[..|more| - 1], more[|more| - 1];
      assert (w + more)[..|w + more| - 1] == w + front && (w + more)[|w + more| - 1] == c;
      SplitPlain(w, front);
      assert Split(w)[n] + more == (Split(w)[n] + front) + [c];
    }
  }

  lemma {:induction false} SplitCount(w: string)
    ensures |Split(w)| == 1 <==> ',' !in w
    ensures |Split(w)| == 1 ==> Split(w) == [w]
  {
    if w != [] {
      SplitCount(w[..|w| - 1]);
      assert w == w[..|w| - 1] + [w[|w| - 1]];
    }
  }

  predicate Ordered(i: nat, opens: seq<nat>) {
    && (forall j :: 0 <= j < |opens| ==> opens[j] < i)
    && forall j, k :: 0 <= j < k < |opens| ==> opens[j] < opens[k]
  }

  /** The text that level `k` of the open braces has read. */
  function LevelText(s: string, i: nat, opens: seq<nat>, k: nat): string
    requires k < |opens| && i <= |s| && Ordered(i, opens)
  {
    s[opens[k] + 1..if k + 1 < |opens| then opens[k + 1] else i]
  }

  /** An open brace: the parser stood below its frame when it was opened, and the frame has read the text since. */
  ghost predicate LevelFits(s: string, i: nat, opens: seq<nat>, stack: seq<Frame>, k: nat)
    requires i <= |s| && Ordered(i, opens) && k < |opens| && |stack| == |opens| + 1
  {
    && s[opens[k]] == '{' && stack[..k + 1] == Read([EMPTY], s[..opens[k]])
    && FrameReads(stack[k + 1], LevelText(s, i, opens, k))
  }

  /** What the stack of the parser and the stack of the scan have in common after `i` characters. */
  ghost predicate InScan(s: string, i: nat, opens: seq<nat>, stack: seq<Frame>) {
    && i <= |s| && Ordered(i, opens)
    && |stack| == |opens| + 1 && stack == Read([EMPTY], s[..i])
    && stack[0].done == [] && Inert(stack[0].current)
    && forall k :: 0 <= k < |opens| ==> LevelFits(s, i, opens, stack, k)
  }

  /** A level that a step does not concern. */
  lemma LevelStays(s: string, i: nat, opens: seq<nat>, stack: seq<Frame>, i': nat, opens': seq<nat>,
                   stack': seq<Frame>, k: nat)
    requires i <= |s| && Ordered(i, opens) && |stack| == |opens| + 1 && k < |opens| && LevelFits(s, i, opens, stack, k)
    requires i' <= |s| && Ordered(i', opens') && |stack'| == |opens'| + 1 && k < |opens'|
    requires opens'[k] == opens[k] && stack'[..k + 2] == stack[..k + 2]
    requires LevelText(s, i', opens', k) == LevelText(s, i, opens, k)
    ensures LevelFits(s, i', opens', stack', k)
  {
    hide FrameReads, Read;
    assert stack'[..k + 1] == stack'[..k + 2][..k + 1] == stack[..k + 1];
    assert stack'[k + 1] == stack'[..k + 2][k + 1] == stack[k + 1];
  }

  /** What is known of the innermost open brace. */
  lemma TopFits(s: string, i: nat, opens: seq<nat>, stack: seq<Frame>)
    requires InScan(s, i, opens, stack) && opens != []
    ensures opens[|opens| - 1] < i <= |s| && |stack| == |opens| + 1 && s[opens[|opens| - 1]] == '{'
    ensures stack[..|opens|] == Read([EMPTY], s[..opens[|opens| - 1]])
    ensures FrameReads(stack[|opens|], s[opens[|opens| - 1] + 1..i])
  {
    hide FrameReads, Read, Inert;
    assert LevelFits(s, i, opens, stack, |opens| - 1);
  }

  lemma ScanStart(s: string)
    ensures InScan(s, 0, [], [EMPTY])
  {
    assert s[..0] == [];
  }

  lemma ReadNext(s: string, i: nat, stack: seq<Frame>)
    requires i < |s| && stack == Read([EMPTY], s[..i]) && stack != []
    ensures Read([EMPTY], s[..i + 1]) == Feed(stack, s[i])
  {
    assert s[..i + 1][..i] == s[..i];
  }

  lemma ScanOpen(s: string, i: nat, opens: seq<nat>, stack: seq<Frame>)
    requires InScan(s, i, opens, stack) && i < |s| && s[i] == '{'
    ensures InScan(s, i + 1, opens + [i], stack + [EMPTY])
  {
    hide FrameReads, Inert, Read, LevelFits;
    ReadNext(s, i, stack);
    var opens', stack', i' := opens + [i], stack + [EMPTY], i + 1;
    forall k | 0 <= k < |opens'|
      ensures LevelFits(s, i', opens', stack', k)
    {
      if k < |opens| {
        assert LevelFits(s, i, opens, stack, k);
        assert LevelText(s, i', opens', k) == LevelText(s, i, opens, k);
        LevelStays(s, i, opens, stack, i', opens', stack', k);
      } else {
        NewLevel(s, i, opens, stack);
      }
    }
  }

  lemma NewLevel(s: string, i: nat, opens: seq<nat>, stack: seq<Frame>)
    requires i < |s| && s[i] == '{' && Ordered(i, opens) && |stack| == |opens| + 1 && stack == Read([EMPTY], s[..i])
    ensures Ordered(i + 1, opens + [i]) && LevelFits(s, i + 1, opens + [i], stack + [EMPTY], |opens|)
  {
    hide FrameReads, Read;
    FreshReads();
    assert (stack + [EMPTY])[..|opens| + 1] == stack;
    assert LevelText(s, i + 1, opens + [i], |opens|) == "";
  }

  /** A step that only adds to the innermost open brace, or to the pattern itself. */
  lemma ScanMore(s: string, i: nat, opens: seq<nat>, stack: seq<Frame>, i': nat, top: Frame)
    requires InScan(s, i, opens, stack) && i < i' <= |s|
    requires Read([EMPTY], s[..i']) == stack[..|opens|] + [top]
    requires opens == [] ==> top.done == [] && Inert(top.current)
    requires opens != [] ==> FrameReads(top, s[opens[|opens| - 1] + 1..i'])
    ensures InScan(s, i', opens, stack[..|opens|] + [top])
  {
    hide FrameReads, Inert, Read, LevelFits;
    var stack', n := stack[..|opens|] + [top], |opens| - 1;
    forall k | 0 <= k < |opens|
      ensures LevelFits(s, i', opens, stack', k)
    {
      assert LevelFits(s, i, opens, stack, k);
      if k < n {
        assert LevelText(s, i', opens, k) == LevelText(s, i, opens, k);
        LevelStays(s, i, opens, stack, i', opens, stack', k);
      } else {
        TopLevel(s, i, opens, stack, i', top);
      }
    }
  }

  lemma TopLevel(s: string, i: nat, opens: seq<nat>, stack: seq<Frame>, i': nat, top: Frame)
    requires i < i' <= |s| && Ordered(i, opens) && opens != [] && |stack| == |opens| + 1
    requires LevelFits(s, i, opens, stack, |opens| - 1)
    requires FrameReads(top, s[opens[|opens| - 1] + 1..i'])
    ensures LevelFits(s, i', opens, stack[..|opens|] + [top], |opens| - 1)
  {
    hide FrameReads, Read;
    assert (stack[..|opens|] + [top])[..|opens|] == stack[..|opens|];
  }

  lemma ScanChar(s: string, i: nat, opens: seq<nat>, stack: seq<Frame>)
    requires InScan(s, i, opens, stack) && i < |s| && s[i] != '{' && (s[i] == '}' ==> opens == [])
    ensures InScan(s, i + 1, opens, Feed(stack, s[i]))
  {
    hide FrameReads, Inert, Read, Split;
    ReadNext(s, i, stack);
    var n, c := |opens|, s[i];
    var top := stack[n];
    if opens == [] {
      InertOne(Ch(c));
      InertConcat(top.current, [Ch(c)]);
      ScanMore(s, i, opens, stack, i + 1, Frame(top.done, top.current + [Ch(c)]));
    } else {
      var w := s[opens[n - 1] + 1..i];
      TopFits(s, i, opens, stack);
      assert s[opens[n - 1] + 1..i + 1] == w + [c];
      if c == ',' {
        FrameReadsComma(top, w);
        ScanMore(s, i, opens, stack, i + 1, Frame(top.done + [Branch(top.current)], []));
      } else {
        ReadsChar(c);
        InertOne(Ch(c));
        SplitPlain(w, [c]);
        FrameReadsMore(top, w, [c], [Ch(c)]);
        ScanMore(s, i, opens, stack, i + 1, Frame(top.done, top.current + [Ch(c)]));
      }
    }
  }

  lemma SoleFrame(f: Frame, w: string)
    requires FrameReads(f, w) && |Split(w)| == 1
    ensures f.done == [] && ReadsAs(w, f.current) && Inert(f.current) && ',' !in w
  {
    SplitCount(w);
    assert ReadsAs(Split(w)[0], PartOf(f, 0));
  }

  /** A brace that closes over no comma leaves a literal behind. */
  lemma ScanClose(s: string, i: nat, opens: seq<nat>, stack: seq<Frame>)
    requires InScan(s, i, opens, stack) && i < |s| && s[i] == '}' && opens != []
    requires |Split(s[opens[|opens| - 1] + 1..i])| == 1
    ensures InScan(s, i + 1, opens[..|opens| - 1], Feed(stack, '}'))
  {
    hide FrameReads, Inert, Read, Split, ReadsAs;
    var n := |opens| - 1;
    ScanLevelBelow(s, i, opens, stack);
    var w, top := s[opens[n] + 1..i], stack[n + 1];
    TopFits(s, i, opens, stack);
    SoleFrame(top, w);
    var group := [Group([Branch(top.current)])];
    InertOne(group[0]);
    ReadNext(s, i, stack);
    assert top.done + [Branch(top.current)] == [Branch(top.current)];
    assert stack[..|stack| - 1] == stack[..n + 1];
    var below := stack[..n + 1][n];
    var grown := Frame(below.done, below.current + group);
    assert Feed(stack, '}') == stack[..n] + [grown];
    var before := opens[n];
    if n == 0 {
      InertConcat(below.current, group);
    } else {
      ReadsGroup(w, top.current);
      TopFits(s, before, opens[..n], stack[..n + 1]);
      var v, more := s[opens[n - 1] + 1..before], "{" + w + "}";
      GroupText(s, before, i);
      Adjoin(s, opens[n - 1] + 1, before, i + 1);
      NoComma(w);
      SplitPlain(v, more);
      FrameReadsMore(below, v, more, group);
    }
    ScanMore(s, before, opens[..n], stack[..n + 1], i + 1, grown);
  }

  /** The text of a group is its braces and what lies between. */
  lemma GroupText(s: string, before: nat, i: nat)
    requires before < i < |s| && s[before] == '{' && s[i] == '}'
    ensures "{" + s[before + 1..i] + "}" == s[before..i + 1]
  {
  }

  lemma Adjoin(s: string, a: nat, b: nat, c: nat)
    requires a <= b <= c <= |s|
    ensures s[a..b] + s[b..c] == s[a..c]
  {
  }

  lemma NoComma(w: string)
    requires ',' !in w
    ensures ',' !in "{" + w + "}"
  {
  }

  /** The scan as it stood at the innermost open brace. */
  lemma ScanLevelBelow(s: string, i: nat, opens: seq<nat>, stack: seq<Frame>)
    requires InScan(s, i, opens, stack) && opens != []
    ensures var n := |opens| - 1; InScan(s, opens[n], opens[..n], stack[..n + 1])
  {
    hide FrameReads, Inert, Read, LevelFits;
    var n := |opens| - 1;
    var i', opens', stack' := opens[n], opens[..n], stack[..n + 1];
    forall k | 0 <= k < n
      ensures LevelFits(s, i', opens', stack', k)
    {
      assert LevelFits(s, i, opens, stack, k);
      assert LevelText(s, i', opens', k) == LevelText(s, i, opens, k);
      LevelStays(s, i, opens, stack, i', opens', stack', k);
    }
    TopFits(s, i, opens, stack);
  }

  /** The alternatives of the group found, and where the parser stands before and after it. */
  ghost predicate Finds(s: string, start: nat, end: nat, alternatives: seq<Branch>) {
    && start < end < |s|
    && |alternatives| == |Split(s[start + 1..end])| > 1
    && (forall j :: 0 <= j < |alternatives| ==>
          ReadsAs(Split(s[start + 1..end])[j], alternatives[j].items) && Inert(alternatives[j].items))
    && Read([EMPTY], s[..end + 1]) == Append(Read([EMPTY], s[..start]), [Group(alternatives)])
  }

  lemma GroupFound(s: string, i: nat, opens: seq<nat>, stack: seq<Frame>) returns (alternatives: seq<Branch>)
    requires InScan(s, i, opens, stack) && i < |s| && s[i] == '}' && opens != []
    requires |Split(s[opens[|opens| - 1] + 1..i])| > 1
    ensures Finds(s, opens[|opens| - 1], i, alternatives)
  {
    hide Inert, Read, Split, ReadsAs;
    var n := |opens| - 1;
    var start, top := opens[n], stack[n + 1];
    TopFits(s, i, opens, stack);
    alternatives := top.done + [Branch(top.current)];
    ReadNext(s, i, stack);
    assert stack[..|stack| - 1] == stack[..n + 1] == Read([EMPTY], s[..start]);
    forall j | 0 <= j < |alternatives|
      ensures ReadsAs(Split(s[start + 1..i])[j], alternatives[j].items) && Inert(alternatives[j].items)
    {
      assert alternatives[j].items == PartOf(top, j);
    }
  }

  lemma {:induction false} ScanFinds(s: string, i: nat, opens: seq<nat>, stack: seq<Frame>)
    returns (alternatives: seq<Branch>)
    requires InScan(s, i, opens, stack)
    ensures match FirstGroup(s, i, opens)
      case None => Inert(Parse(s))
      case Some((start, end)) => Finds(s, start, end, alternatives)
    decreases |s| - i
  {
    hide InScan, Split, Finds, Inert, Parse, Feed;
    ScanBounds(s, i, opens, stack);
    alternatives := [];
    if i == |s| {
      AllInert(s, opens, stack);
    } else if s[i] == '{' {
      ScanOpen(s, i, opens, stack);
      alternatives := ScanFinds(s, i + 1, opens + [i], stack + [EMPTY]);
    } else if s[i] == '}' && opens != [] {
      if |Split(s[opens[|opens| - 1] + 1..i])| > 1 {
        alternatives := GroupFound(s, i, opens, stack);
      } else {
        ScanClose(s, i, opens, stack);
        alternatives := ScanFinds(s, i + 1, opens[..|opens| - 1], Feed(stack, '}'));
      }
    } else {
      ScanChar(s, i, opens, stack);
      alternatives := ScanFinds(s, i + 1, opens, Feed(stack, s[i]));
    }
  }

  lemma ScanBounds(s: string, i: nat, opens: seq<nat>, stack: seq<Frame>)
    requires InScan(s, i, opens, stack)
    ensures i <= |s| && |stack| == |opens| + 1 && forall j :: 0 <= j < |opens| ==> opens[j] < i
  {
  }

  lemma {:induction false} FlatInert(done: seq<Branch>)
    requires forall j :: 0 <= j < |done| ==> Inert(done[j].items)
    ensures Inert(Flat(done))
  {
    if done != [] {
      var front := done[..|done| - 1];
      FlatInert(front);
      InertConcat(Flat(front), done[|done| - 1].items);
      InertOne(Ch(','));
      InertConcat(Flat(front) + done[|done| - 1].items, [Ch(',')]);
    }
  }

  lemma FrameInert(f: Frame, w: string)
    requires FrameReads(f, w)
    ensures Inert(Flat(f.done) + f.current)
  {
    hide Inert, ReadsAs, Split;
    forall j | 0 <= j < |f.done|
      ensures Inert(f.done[j].items)
    {
      assert Inert(PartOf(f, j));
    }
    assert Inert(PartOf(f, |f.done|));
    FlatInert(f.done);
    InertConcat(Flat(f.done), f.current);
  }

  lemma {:induction false} CloseInert(stack: seq<Frame>)
    requires stack != [] && forall k :: 0 <= k < |stack| ==> Inert(Flat(stack[k].done) + stack[k].current)
    ensures Inert(Close(stack))
  {
    hide Inert, Flat;
    if |stack| > 1 {
      CloseInert(stack[..|stack| - 1]);
      InertOne(Ch('{'));
      InertConcat(Close(stack[..|stack| - 1]), [Ch('{')]);
      InertConcat(Close(stack[..|stack| - 1]) + [Ch('{')], Flat(stack[|stack| - 1].done) + stack[|stack| - 1].current);
    }
  }

  lemma AllInert(s: string, opens: seq<nat>, stack: seq<Frame>)
    requires InScan(s, |s|, opens, stack)
    ensures Inert(Parse(s))
  {
    hide FrameReads, Inert, Read;
    assert s[..|s|] == s;
    forall k | 0 <= k < |stack|
      ensures Inert(Flat(stack[k].done) + stack[k].current)
    {
      if k == 0 {
        assert Flat([]) + stack[0].current == stack[0].current;
      } else {
        assert LevelFits(s, |s|, opens, stack, k - 1);
        FrameInert(stack[k], LevelText(s, |s|, opens, k - 1));
      }
    }
    CloseInert(stack);
  }

  // --- One expansion keeps the meaning --------------------------------------

  ghost function PatternMeaning(s: string): Language { Meaning(Parse(s)) }

  /** What some patterns mean together. */
  ghost function MeaningOfAll(patterns: seq<string>): Language {
    if patterns == [] then {} else MeaningOfAll(patterns[..|patterns| - 1]) + PatternMeaning(patterns[|patterns| - 1])
  }

  lemma PartInContext(prefix: string, part: string, suffix: string, items: seq<Item>)
    requires ReadsAs(part, items)
    ensures PatternMeaning(prefix + part + suffix) == InContext(Read([EMPTY], prefix), items, suffix)
  {
    hide Read, Meaning, Append;
    ReadConcat([EMPTY], prefix + part, suffix);
    ReadConcat([EMPTY], prefix, part);
    assert Read(Read([EMPTY], prefix), part) == Append(Read([EMPTY], prefix), items);
  }

  lemma {:induction false} PartsInContext(prefix: string, parts: seq<string>, suffix: string, alternatives: seq<Branch>)
    requires |parts| == |alternatives| && forall j :: 0 <= j < |parts| ==> ReadsAs(parts[j], alternatives[j].items)
    ensures MeaningOfAll(Rejoined(prefix, parts, suffix)) == AnyInContext(Read([EMPTY], prefix), alternatives, suffix)
  {
    hide ReadsAs, PatternMeaning, InContext, Read;
    if parts != [] {
      var n := |parts| - 1;
      PartsInContext(prefix, parts[..n], suffix, alternatives[..n]);
      PartInContext(prefix, parts[n], suffix, alternatives[n].items);
      assert Rejoined(prefix, parts, suffix)[..n] == Rejoined(prefix, parts[..n], suffix);
    }
  }

  /** Expanding a group keeps the meaning; a pattern that cannot be expanded means itself alone. */
  lemma ExpandOneMeaning(s: string)
    ensures match ExpandOne(s)
      case Err(_) => true
      case Ok(None) => PatternMeaning(s) == {s}
      case Ok(Some(patterns)) => MeaningOfAll(patterns) == PatternMeaning(s)
  {
    hide InScan, Inert, Split, PatternMeaning, MeaningOfAll, FirstGroup, Finds, Parse;
    ScanStart(s);
    var alternatives := ScanFinds(s, 0, [], [EMPTY]);
    GroupInside(s, 0, []);
    match FirstGroup(s, 0, [])
    case None => InertIsItself(s);
    case Some((start, end)) => GroupExpands(s, start, end, alternatives);
  }

  lemma InertIsItself(s: string)
    requires Inert(Parse(s))
    ensures PatternMeaning(s) == {s}
  {
    hide Inert, Parse, Meaning;
    InertMeaning(Parse(s));
    ParseKeepsText(s);
  }

  lemma GroupExpands(s: string, start: nat, end: nat, alternatives: seq<Branch>)
    requires Finds(s, start, end, alternatives)
    ensures start < end < |s|
    ensures MeaningOfAll(Rejoined(s[..start], Split(s[start + 1..end]), s[end + 1..])) == PatternMeaning(s)
  {
    hide Finds, ReadsAs, Split, PatternMeaning, MeaningOfAll, InContext, AnyInContext, Read, Choice, Rejoined;
    FindsParts(s, start, end, alternatives);
    FoundInContext(s, start, end, alternatives);
    PartsInContext(s[..start], Split(s[start + 1..end]), s[end + 1..], alternatives);
    ChoiceInContext(Read([EMPTY], s[..start]), alternatives, s[end + 1..]);
  }

  lemma FindsParts(s: string, start: nat, end: nat, alternatives: seq<Branch>)
    requires Finds(s, start, end, alternatives)
    ensures start < end < |s| && |alternatives| == |Split(s[start + 1..end])| > 1
    ensures forall j :: 0 <= j < |alternatives| ==>
      ReadsAs(Split(s[start + 1..end])[j], alternatives[j].items) && Inert(alternatives[j].items)
  {
    hide ReadsAs, Split, Inert;
  }

  lemma FoundInContext(s: string, start: nat, end: nat, alternatives: seq<Branch>)
    requires Finds(s, start, end, alternatives)
    ensures start < end < |s| && |alternatives| > 1
    ensures PatternMeaning(s) == InContext(Read([EMPTY], s[..start]), Choice(alternatives), s[end + 1..])
  {
    hide Meaning, Close, Read, Split, ReadsAs;
    assert s == s[..end + 1] + s[end + 1..];
    ReadConcat([EMPTY], s[..end + 1], s[end + 1..]);
  }

  // --- Fewer braces each time -----------------------------------------------

  function Braces(s: string): nat {
    if s == [] then 0 else Braces(s[..|s| - 1]) + if s[|s| - 1] == '{' then 1 else 0
  }

  lemma {:induction false} BracesConcat(a: string, b: string)
    ensures Braces(a + b) == Braces(a) + Braces(b)
  {
    if b == [] {
      assert a + b == a;
    } else {
      assert (a + b)[..|a + b| - 1] == a + b[..|b| - 1] && (a + b)[|a + b| - 1] == b[|b| - 1];
      BracesConcat(a, b[..|b| - 1]);
    }
  }

  lemma {:induction false} PartBraces(w: string, j: nat)
    requires j < |Split(w)|
    ensures Braces(Split(w)[j]) <= Braces(w)
  {
    if w != [] {
      var before, c := Split(w[..|w| - 1]), w[|w| - 1];
      var n := |before| - 1;
      if j <= n { PartBraces(w[..|w| - 1], j); }
      assert (before[n] + [c])[..|before[n]|] == before[n];
    }
  }

  lemma {:induction false} OpensAreBraces(s: string, i: nat, opens: seq<nat>)
    requires i <= |s| && forall k :: 0 <= k < |opens| ==> opens[k] < i && s[opens[k]] == '{'
    ensures FirstGroup(s, i, opens).Some? ==>
      FirstGroup(s, i, opens).value.0 < |s| && s[FirstGroup(s, i, opens).value.0] == '{'
    decreases |s| - i
  {
    hide Split;
    if i < |s| {
      if s[i] == '{' {
        OpensAreBraces(s, i + 1, opens + [i]);
      } else if s[i] == '}' && opens != [] {
        if |Split(s[opens[|opens| - 1] + 1..i])| <= 1 { OpensAreBraces(s, i + 1, opens[..|opens| - 1]); }
      } else {
        OpensAreBraces(s, i + 1, opens);
      }
    }
  }

  /** Every pattern made by an expansion has fewer braces than the one it was made from. */
  lemma ExpandOneShrinks(s: string)
    ensures ExpandOne(s).Ok? && ExpandOne(s).value.Some? ==>
      forall k :: 0 <= k < |ExpandOne(s).value.value| ==> Braces(ExpandOne(s).value.value[k]) < Braces(s)
  {
    hide Split, FirstGroup, Braces;
    GroupInside(s, 0, []);
    OpensAreBraces(s, 0, []);
    if ExpandOne(s).Ok? && ExpandOne(s).value.Some? {
      var (start, end) := FirstGroup(s, 0, []).value;
      var prefix, w, suffix := s[..start], s[start + 1..end], s[end + 1..];
      BracesAround(s, start, end);
      forall k | 0 <= k < |ExpandOne(s).value.value|
        ensures Braces(ExpandOne(s).value.value[k]) < Braces(s)
      {
        var part := Split(w)[k];
        PartBraces(w, k);
        BracesConcat(prefix + part, suffix);
        BracesConcat(prefix, part);
      }
    }
  }

  lemma BracesAround(s: string, start: nat, end: nat)
    requires start < end < |s| && s[start] == '{'
    ensures Braces(s) >= Braces(s[..start]) + 1 + Braces(s[start + 1..end]) + Braces(s[end + 1..])
  {
    hide Braces;
    assert s == ((s[..start] + ['{']) + s[start + 1..end]) + ([s[end]] + s[end + 1..]);
    BracesConcat((s[..start] + ['{']) + s[start + 1..end], [s[end]] + s[end + 1..]);
    BracesConcat(s[..start] + ['{'], s[start + 1..end]);
    BracesConcat(s[..start], ['{']);
    BracesConcat([s[end]], s[end + 1..]);
    OneBrace();
  }

  lemma OneBrace()
    ensures Braces(['{']) == 1
  {
    assert ['{'][..0] == [];
  }
}
