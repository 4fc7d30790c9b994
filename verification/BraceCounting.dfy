/**
  How many patterns a pattern expands to, counted with repetitions, and how many
  alternatives its choices have: a choice multiplies, wherever it stands.
 */
module BraceCounting {
  import opened Wrappers
  import opened BraceSyntax
  import opened BraceExpansion
  import opened BraceRewriting

  /** `narrow`: no choice has more than 64 alternatives. */
  datatype Size = Size(count: nat, narrow: bool)

  const ONE := Size(1, true)

  function Times(a: Size, b: Size): Size { Size(a.count * b.count, a.narrow && b.narrow) }

  function Width(alternatives: nat): Size { if alternatives <= 1 then ONE else Size(alternatives, alternatives <= 64) }

  function ItemSize(item: Item): Size
    decreases item
  {
    match item
    case Ch(_) => ONE
    case Group(alternatives) => Times(Width(|alternatives|), BranchesSize(alternatives))
  }

  function SizeOf(items: seq<Item>): Size
    decreases items
  {
    if items == [] then ONE else Times(SizeOf(items[..|items| - 1]), ItemSize(items[|items| - 1]))
  }

  function BranchesSize(alternatives: seq<Branch>): Size
    decreases alternatives
  {
    if alternatives == [] then ONE
    else Times(BranchesSize(alternatives[..|alternatives| - 1]), SizeOf(alternatives[|alternatives| - 1].items))
  }

  // --- Multiplying ----------------------------------------------------------

  lemma TimesOne(a: Size)
    ensures Times(a, ONE) == a == Times(ONE, a)
  {
  }

  lemma TimesAssociates(a: Size, b: Size, c: Size)
    ensures Times(Times(a, b), c) == Times(a, Times(b, c))
  {
  }

  lemma TimesCommutes(a: Size, b: Size)
    ensures Times(a, b) == Times(b, a)
  {
  }

  lemma {:induction false} SizeConcat(a: seq<Item>, b: seq<Item>)
    ensures SizeOf(a + b) == Times(SizeOf(a), SizeOf(b))
  {
    hide Times, ItemSize;
    if b == [] {
      assert a + b == a;
      TimesOne(SizeOf(a));
    } else {
      assert (a + b)[..|a + b| - 1] == a + b[..|b| - 1] && (a + b)[|a + b| - 1] == b[|b| - 1];
      SizeConcat(a, b[..|b| - 1]);
      TimesAssociates(SizeOf(a), SizeOf(b[..|b| - 1]), ItemSize(b[|b| - 1]));
    }
  }

  lemma SizeOne(item: Item)
    ensures SizeOf([item]) == ItemSize(item)
  {
    hide Times, ItemSize;
    assert [item][..0] == [];
    TimesOne(ItemSize(item));
  }

  lemma BranchesSnoc(done: seq<Branch>, current: seq<Item>)
    ensures BranchesSize(done + [Branch(current)]) == Times(BranchesSize(done), SizeOf(current))
  {
    hide Times, SizeOf;
    assert (done + [Branch(current)])[..|done|] == done;
  }

  lemma {:induction false} FlatSize(done: seq<Branch>)
    ensures SizeOf(Flat(done)) == BranchesSize(done)
  {
    hide Times, SizeOf;
    if done == [] {
      NothingSize();
    } else {
      var front, last := done[..|done| - 1], done[|done| - 1].items;
      FlatSize(front);
      SizeConcat(Flat(front) + last, [Ch(',')]);
      SizeConcat(Flat(front), last);
      CharSize(',');
      TimesOne(Times(SizeOf(Flat(front)), SizeOf(last)));
    }
  }

  lemma NothingSize()
    ensures SizeOf([]) == ONE
  {
  }

  lemma CharSize(c: char)
    ensures SizeOf([Ch(c)]) == ONE
  {
    SizeOne(Ch(c));
  }

  /** Nothing to choose: one pattern. */
  lemma {:induction false} InertSize(items: seq<Item>)
    requires Inert(items)
    ensures SizeOf(items) == ONE
    decreases items
  {
    if items != [] {
      InertSize(items[..|items| - 1]);
      match items[|items| - 1]
      case Ch(_) =>
      case Group(alternatives) =>
        InertSize(alternatives[0].items);
        assert alternatives[..0] == [];
        assert BranchesSize(alternatives) == Times(ONE, ONE);
    }
  }

  // --- Stacks ---------------------------------------------------------------

  function FrameSize(f: Frame): Size { Times(BranchesSize(f.done), SizeOf(f.current)) }

  function StackSize(stack: seq<Frame>): Size {
    if stack == [] then ONE else Times(StackSize(stack[..|stack| - 1]), FrameSize(stack[|stack| - 1]))
  }

  lemma StackSnoc(below: seq<Frame>, top: Frame)
    ensures StackSize(below + [top]) == Times(StackSize(below), FrameSize(top))
  {
    hide Times, FrameSize;
    FrameSnoc(below, top);
  }

  lemma {:induction false} CloseSize(stack: seq<Frame>)
    requires stack != []
    ensures SizeOf(Close(stack)) == StackSize(stack)
  {
    hide Times, SizeOf, Flat;
    var below, top := stack[..|stack| - 1], stack[|stack| - 1];
    SizeConcat(Flat(top.done), top.current);
    FlatSize(top.done);
    if |stack| == 1 {
      TimesOne(FrameSize(top));
      assert StackSize(below) == ONE;
    } else {
      CloseSize(below);
      CharSize('{');
      SizeConcat(Close(below), [Ch('{')]);
      TimesOne(SizeOf(Close(below)));
      SizeConcat(Close(below) + [Ch('{')], Flat(top.done) + top.current);
    }
  }

  lemma AppendSize(stack: seq<Frame>, items: seq<Item>)
    requires stack != []
    ensures StackSize(Append(stack, items)) == Times(StackSize(stack), SizeOf(items))
  {
    hide Times, SizeOf, BranchesSize;
    var below, top := stack[..|stack| - 1], stack[|stack| - 1];
    var grown := Frame(top.done, top.current + items);
    assert stack == below + [top];
    StackSnoc(below, top);
    StackSnoc(below, grown);
    SizeConcat(top.current, items);
    TimesAssociates(BranchesSize(top.done), SizeOf(top.current), SizeOf(items));
    TimesAssociates(StackSize(below), FrameSize(top), SizeOf(items));
  }

  /** What reading one more character multiplies by: a choice that closes counts its alternatives. */
  function FeedFactor(stack: seq<Frame>, c: char): Size
    requires stack != []
  {
    if c == '}' && |stack| > 1 then Width(|stack[|stack| - 1].done| + 1) else ONE
  }

  lemma FeedSize(stack: seq<Frame>, c: char)
    requires stack != []
    ensures StackSize(Feed(stack, c)) == Times(StackSize(stack), FeedFactor(stack, c))
  {
    hide Times, SizeOf, BranchesSize, StackSize, Width, Append;
    var below, top := stack[..|stack| - 1], stack[|stack| - 1];
    assert stack == below + [top];
    StackSnoc(below, top);
    TimesOne(StackSize(stack));
    if c == '{' {
      StackSnoc(stack, EMPTY);
      EmptyFrame();
    } else if c == '}' && below != [] {
      ClosedSize(below, top);
    } else if c == ',' && below != [] {
      StackSnoc(below, Frame(top.done + [Branch(top.current)], []));
      BranchesSnoc(top.done, top.current);
      NothingSize();
      TimesOne(FrameSize(top));
    } else {
      AppendSize(stack, [Ch(c)]);
      CharSize(c);
    }
  }

  lemma EmptyFrame()
    ensures FrameSize(EMPTY) == ONE
  {
  }

  lemma ClosedSize(below: seq<Frame>, top: Frame)
    requires below != []
    ensures var group := Group(top.done + [Branch(top.current)]);
      StackSize(Append(below, [group])) ==
      Times(Times(StackSize(below), FrameSize(top)), Width(|top.done| + 1))
  {
    var alternatives := top.done + [Branch(top.current)];
    AppendSize(below, [Group(alternatives)]);
    SizeOne(Group(alternatives));
    BranchesSnoc(top.done, top.current);
    hide Times, SizeOf, BranchesSize, StackSize, Width, Append;
    TimesCommutes(Width(|alternatives|), FrameSize(top));
    TimesAssociates(StackSize(below), FrameSize(top), Width(|alternatives|));
  }

  function ReadFactor(stack: seq<Frame>, s: string): Size
    requires stack != []
  {
    if s == [] then ONE
    else Times(ReadFactor(stack, s[..|s| - 1]), FeedFactor(Read(stack, s[..|s| - 1]), s[|s| - 1]))
  }

  lemma {:induction false} ReadSize(stack: seq<Frame>, s: string)
    requires stack != []
    ensures StackSize(Read(stack, s)) == Times(StackSize(stack), ReadFactor(stack, s))
  {
    hide Times, StackSize, Feed, FeedFactor;
    if s == [] {
      TimesOne(StackSize(stack));
    } else {
      var front, c := s[..|s| - 1], s[|s| - 1];
      ReadSize(stack, front);
      FeedSize(Read(stack, front), c);
      TimesAssociates(StackSize(stack), ReadFactor(stack, front), FeedFactor(Read(stack, front), c));
    }
  }

  /** As many frames with as many finished alternatives. */
  ghost predicate Alike(s: seq<Frame>, t: seq<Frame>) {
    s != [] && |s| == |t| && forall k :: 0 <= k < |s| ==> |s[k].done| == |t[k].done|
  }

  lemma FeedAlike(s: seq<Frame>, t: seq<Frame>, c: char)
    requires Alike(s, t)
    ensures Alike(Feed(s, c), Feed(t, c)) && FeedFactor(s, c) == FeedFactor(t, c)
  {
  }

  lemma {:induction false} ReadAlike(s: seq<Frame>, t: seq<Frame>, q: string)
    requires Alike(s, t)
    ensures Alike(Read(s, q), Read(t, q)) && ReadFactor(s, q) == ReadFactor(t, q)
  {
    hide Times, Feed, FeedFactor, Alike;
    AlikeNotEmpty(s, t);
    if q != [] {
      ReadAlike(s, t, q[..|q| - 1]);
      FeedAlike(Read(s, q[..|q| - 1]), Read(t, q[..|q| - 1]), q[|q| - 1]);
    }
  }

  lemma AlikeNotEmpty(s: seq<Frame>, t: seq<Frame>)
    requires Alike(s, t)
    ensures s != [] && t != []
  {
  }

  /** What stands between what is read and what follows multiplies the rest. */
  lemma SizeInContext(stack: seq<Frame>, items: seq<Item>, suffix: string)
    requires stack != []
    ensures SizeOf(Close(Read(Append(stack, items), suffix))) ==
            Times(SizeOf(items), SizeOf(Close(Read(stack, suffix))))
  {
    AppendAlike(stack, items);
    hide Times, SizeOf, StackSize, Append, Close, Read, ReadFactor, Alike;
    var grown := Append(stack, items);
    var factor := ReadFactor(stack, suffix);
    CloseSize(Read(grown, suffix));
    CloseSize(Read(stack, suffix));
    ReadSize(grown, suffix);
    ReadSize(stack, suffix);
    ReadAlike(grown, stack, suffix);
    AppendSize(stack, items);
    TimesCommutes(StackSize(stack), SizeOf(items));
    TimesAssociates(SizeOf(items), StackSize(stack), factor);
  }

  lemma AppendAlike(stack: seq<Frame>, items: seq<Item>)
    requires stack != []
    ensures Append(stack, items) != [] && Alike(Append(stack, items), stack)
  {
  }

  // --- One expansion --------------------------------------------------------

  function PatternSize(s: string): Size { SizeOf(Parse(s)) }

  lemma {:induction false} SizePositive(items: seq<Item>)
    ensures SizeOf(items).count >= 1
    decreases items, 1
  {
    if items != [] {
      SizePositive(items[..|items| - 1]);
      ItemPositive(items[|items| - 1]);
      ProductPositive(SizeOf(items[..|items| - 1]).count, ItemSize(items[|items| - 1]).count);
    }
  }

  lemma ProductPositive(a: nat, b: nat)
    requires a >= 1 && b >= 1
    ensures a * b >= 1
  {
  }

  lemma {:induction false} ItemPositive(item: Item)
    ensures ItemSize(item).count >= 1
    decreases item, 0
  {
    match item
    case Ch(_) =>
    case Group(alternatives) =>
      BranchesPositive(alternatives);
      ProductPositive(Width(|alternatives|).count, BranchesSize(alternatives).count);
  }

  lemma {:induction false} BranchesPositive(alternatives: seq<Branch>)
    ensures BranchesSize(alternatives).count >= 1
    decreases alternatives, 0
  {
    if alternatives != [] {
      var n := |alternatives| - 1;
      BranchesPositive(alternatives[..n]);
      SizePositive(alternatives[n].items);
      ProductPositive(BranchesSize(alternatives[..n]).count, SizeOf(alternatives[n].items).count);
    }
  }

  lemma {:induction false} InertBranches(alternatives: seq<Branch>)
    requires forall j :: 0 <= j < |alternatives| ==> Inert(alternatives[j].items)
    ensures BranchesSize(alternatives) == ONE
  {
    hide Inert, SizeOf;
    if alternatives != [] {
      InertBranches(alternatives[..|alternatives| - 1]);
      InertSize(alternatives[|alternatives| - 1].items);
    }
  }

  /** What is around the group that is expanded. */
  function Rest(s: string, start: nat, end: nat): Size
    requires start < end < |s|
  {
    SizeOf(Close(Read(Read([EMPTY], s[..start]), s[end + 1..])))
  }

  /** The pattern is as many times its rest as the group has alternatives, and each pattern made is that rest. */
  lemma GroupCounts(s: string, start: nat, end: nat, alternatives: seq<Branch>)
    requires Finds(s, start, end, alternatives)
    ensures start < end < |s| && |alternatives| == |Split(s[start + 1..end])| > 1
    ensures PatternSize(s) == Times(Width(|alternatives|), Rest(s, start, end))
    ensures forall p :: p in Rejoined(s[..start], Split(s[start + 1..end]), s[end + 1..]) ==>
      PatternSize(p) == Rest(s, start, end)
  {
    FindsParts(s, start, end, alternatives);
    var stack, suffix, parts := Read([EMPTY], s[..start]), s[end + 1..], Split(s[start + 1..end]);
    WholeSize(s, start, end, alternatives);
    forall p | p in Rejoined(s[..start], parts, suffix)
      ensures PatternSize(p) == Rest(s, start, end)
    {
      hide Read, SizeOf, Times, Append, Close, Inert, ReadsAs, Split, Finds;
      var j :| 0 <= j < |parts| && p == s[..start] + parts[j] + suffix;
      PartSize(s[..start], parts[j], suffix, alternatives[j].items);
    }
  }

  lemma WholeSize(s: string, start: nat, end: nat, alternatives: seq<Branch>)
    requires Finds(s, start, end, alternatives)
    ensures start < end < |s| && PatternSize(s) == Times(Width(|alternatives|), Rest(s, start, end))
  {
    FindsParts(s, start, end, alternatives);
    FindsRead(s, start, end, alternatives);
    hide Read, SizeOf, Append, Close, Inert, ReadsAs, Split, Finds, Width;
    var stack, suffix := Read([EMPTY], s[..start]), s[end + 1..];
    assert s == s[..end + 1] + suffix;
    ReadConcat([EMPTY], s[..end + 1], suffix);
    SizeInContext(stack, [Group(alternatives)], suffix);
    SizeOne(Group(alternatives));
    InertBranches(alternatives);
    TimesOne(Width(|alternatives|));
  }

  lemma FindsRead(s: string, start: nat, end: nat, alternatives: seq<Branch>)
    requires Finds(s, start, end, alternatives)
    ensures start < end < |s|
    ensures Read([EMPTY], s[..end + 1]) == Append(Read([EMPTY], s[..start]), [Group(alternatives)])
  {
    hide Read, Append, Inert, ReadsAs, Split;
  }

  lemma PartSize(prefix: string, part: string, suffix: string, items: seq<Item>)
    requires ReadsAs(part, items) && Inert(items)
    ensures PatternSize(prefix + part + suffix) == SizeOf(Close(Read(Read([EMPTY], prefix), suffix)))
  {
    hide Read, SizeOf, Append, Close, Inert, Times;
    ReadConcat([EMPTY], prefix + part, suffix);
    ReadConcat([EMPTY], prefix, part);
    assert Read(Read([EMPTY], prefix), part) == Append(Read([EMPTY], prefix), items);
    SizeInContext(Read([EMPTY], prefix), items, suffix);
    InertSize(items);
    TimesOne(SizeOf(Close(Read(Read([EMPTY], prefix), suffix))));
  }

  // --- Lists of patterns ----------------------------------------------------

  function Total(patterns: seq<string>): nat {
    if patterns == [] then 0 else Total(patterns[..|patterns| - 1]) + PatternSize(patterns[|patterns| - 1]).count
  }

  predicate AllNarrow(patterns: seq<string>) { forall p :: p in patterns ==> PatternSize(p).narrow }

  lemma {:induction false} TotalOfEqual(patterns: seq<string>, size: Size)
    requires forall p :: p in patterns ==> PatternSize(p) == size
    ensures Total(patterns) == |patterns| * size.count
    ensures patterns != [] ==> (AllNarrow(patterns) <==> size.narrow)
  {
    hide PatternSize;
    if patterns != [] {
      var n := |patterns| - 1;
      assert patterns[n] in patterns;
      TotalOfEqual(patterns[..n], size);
      OnceMore(n, size.count);
    }
  }

  lemma OnceMore(n: nat, c: nat)
    ensures (n + 1) * c == n * c + c
  {
  }

  lemma {:induction false} TotalConcat(a: seq<string>, b: seq<string>)
    ensures Total(a + b) == Total(a) + Total(b)
    ensures AllNarrow(a + b) <==> AllNarrow(a) && AllNarrow(b)
  {
    hide PatternSize;
    if b == [] {
      assert a + b == a;
    } else {
      assert (a + b)[..|a + b| - 1] == a + b[..|b| - 1] && (a + b)[|a + b| - 1] == b[|b| - 1];
      TotalConcat(a, b[..|b| - 1]);
    }
  }

  lemma {:induction false} TotalAtLeast(patterns: seq<string>)
    ensures |patterns| <= Total(patterns)
  {
    hide PatternSize;
    if patterns != [] {
      TotalAtLeast(patterns[..|patterns| - 1]);
      PatternPositive(patterns[|patterns| - 1]);
    }
  }

  lemma PatternPositive(s: string)
    ensures PatternSize(s).count >= 1
  {
    hide Parse;
    SizePositive(Parse(s));
  }

  /** An expansion fails exactly for a group of more than 64 alternatives, and else keeps the count and every width. */
  lemma ExpandOneCounts(s: string)
    ensures match ExpandOne(s)
      case Err(e) => e == TooManyAlternatives && !PatternSize(s).narrow
      case Ok(None) => PatternSize(s) == ONE
      case Ok(Some(patterns)) =>
        Total(patterns) == PatternSize(s).count && (AllNarrow(patterns) <==> PatternSize(s).narrow)
  {
    ScanStart(s);
    hide InScan, Inert, Split, FirstGroup, Finds, Parse, PatternSize, Rejoined;
    var alternatives := ScanFinds(s, 0, [], [EMPTY]);
    GroupInside(s, 0, []);
    match FirstGroup(s, 0, [])
    case None =>
      assert PatternSize(s) == ONE by { OneAlone(s); }
    case Some((start, end)) => GroupExpansionCounts(s, start, end, alternatives);
  }

  lemma OneAlone(s: string)
    requires Inert(Parse(s))
    ensures PatternSize(s) == ONE
  {
    hide Parse, Inert;
    InertSize(Parse(s));
  }

  lemma GroupExpansionCounts(s: string, start: nat, end: nat, alternatives: seq<Branch>)
    requires Finds(s, start, end, alternatives)
    ensures start < end < |s| && |Split(s[start + 1..end])| > 1
    ensures var parts := Split(s[start + 1..end]);
      var patterns := Rejoined(s[..start], parts, s[end + 1..]);
      if |parts| > 64 then !PatternSize(s).narrow
      else Total(patterns) == PatternSize(s).count && (AllNarrow(patterns) <==> PatternSize(s).narrow)
  {
    hide Finds, PatternSize, Rest, Split, Total, AllNarrow;
    GroupCounts(s, start, end, alternatives);
    var parts := Split(s[start + 1..end]);
    var patterns := Rejoined(s[..start], parts, s[end + 1..]);
    TotalOfEqual(patterns, Rest(s, start, end));
  }
}
